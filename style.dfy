/** Text styles of style.py: a set of SGR codes (section 8.3.117 of
    ECMA-48) named by `sgr_styles`. */
module Styles {
  import opened Wrappers
  import opened Text
  import opened Constants
  import opened Ecma48

  /** `sgr_styles`. */
  const SgrStyles: map<string, nat> := map[
    "reset" := 0, "bold" := 1, "faint" := 2, "italic" := 3, "underline" := 4,
    "slow_blink" := 5, "fast_blink" := 6, "reverse" := 7, "conceal" := 8,
    "strikethrough" := 9, "framed" := 51, "circled" := 52, "overlined" := 53]

  /** Every code is below this bound. */
  const CodeBound: nat := 54

  lemma CodesBelowBound()
    ensures forall name :: name in SgrStyles ==> SgrStyles[name] < CodeBound
  {
  }

  /** The codes of `s` below `k`, in ascending order. Python's set
      iteration order is an implementation detail, and this is the order
      the model fixes for it. */
  function Ascending(s: set<nat>, k: nat): (codes: seq<nat>)
    ensures forall i :: 0 <= i < |codes| ==> codes[i] in s && codes[i] < k
    ensures forall x :: x in s && x < k ==> x in codes
    ensures forall i, j :: 0 <= i < j < |codes| ==> codes[i] < codes[j]
  {
    if k == 0 then []
    else Ascending(s, k - 1) + (if k - 1 in s then [k - 1] else [])
  }

  /** `CSI n m` for code `n`. */
  function Sgr(n: nat): Control {
    Control(NatToString(n), 'm')
  }

  function SgrAll(codes: seq<nat>): (cs: seq<Control>)
    ensures |cs| == |codes|
    ensures forall i :: 0 <= i < |codes| ==> cs[i] == Sgr(codes[i])
  {
    seq(|codes|, i requires 0 <= i < |codes| => Sgr(codes[i]))
  }

  lemma SgrAllReadsBack(codes: seq<nat>)
    ensures forall i :: 0 <= i < |codes| ==>
              WellFormed(SgrAll(codes)[i]) && AllDigits(SgrAll(codes)[i].params) &&
              DigitsValue(SgrAll(codes)[i].params) == codes[i]
  {
    forall i | 0 <= i < |codes|
      ensures WellFormed(SgrAll(codes)[i]) && DigitsValue(SgrAll(codes)[i].params) == codes[i]
    {
      DigitsAreParams(NatToString(codes[i]));
      DigitsValueOfNatToString(codes[i]);
    }
  }

  /** `Style.ansi` for a set of codes below `CodeBound`. */
  function AnsiOf(styles: set<nat>): string {
    RenderAll(SgrAll(Ascending(styles, CodeBound)))
  }

  /** The controls for the codes below `k` are one `CSI n m` per code,
      each code once, in ascending order. */
  lemma AscendingControls(styles: set<nat>, k: nat)
    ensures var cs := SgrAll(Ascending(styles, k));
            && (forall i :: 0 <= i < |cs| ==> WellFormed(cs[i]) && cs[i].final == 'm' && AllDigits(cs[i].params))
            && (forall c :: c in styles && c < k <==> exists i :: 0 <= i < |cs| && DigitsValue(cs[i].params) == c)
            && (forall i, j :: 0 <= i < j < |cs| ==> DigitsValue(cs[i].params) < DigitsValue(cs[j].params))
  {
    SgrAllReadsBack(Ascending(styles, k));
    AscendingCover(styles, k);
  }

  /** The codes of the controls are exactly the codes of the set below `k`. */
  lemma AscendingCover(styles: set<nat>, k: nat)
    ensures var cs := SgrAll(Ascending(styles, k));
            forall c :: c in styles && c < k <==> exists i :: 0 <= i < |cs| && DigitsValue(cs[i].params) == c
  {
    var codes := Ascending(styles, k);
    var cs := SgrAll(codes);
    SgrAllReadsBack(codes);
    forall c | c in styles && c < k
      ensures exists i :: 0 <= i < |cs| && DigitsValue(cs[i].params) == c
    {
      var i :| 0 <= i < |codes| && codes[i] == c;
      assert DigitsValue(cs[i].params) == c;
    }
  }

  /** The escape of a style set reads back as one `CSI n m` per code of
      the set, each code once, in ascending order. */
  lemma AnsiOfReadsBack(styles: set<nat>)
    requires forall c :: c in styles ==> c < CodeBound
    ensures Parse(AnsiOf(styles)).Some?
    ensures var cs := Parse(AnsiOf(styles)).value;
            && (forall i :: 0 <= i < |cs| ==> cs[i].final == 'm' && AllDigits(cs[i].params))
            && (forall c :: c in styles <==> exists i :: 0 <= i < |cs| && DigitsValue(cs[i].params) == c)
            && (forall i, j :: 0 <= i < j < |cs| ==> DigitsValue(cs[i].params) < DigitsValue(cs[j].params))
  {
    var cs := SgrAll(Ascending(styles, CodeBound));
    AscendingControls(styles, CodeBound);
    ParseRenderAll(cs);
  }

  /** `Style.none.ansi()`: a single SGR 0, which resets every attribute. */
  function NoneAnsi(): (s: string)
    ensures Parse(s) == Some([Sgr(0)])
  {
    ResetReadsBack();
    CSI + "0m"
  }

  lemma ResetReadsBack()
    ensures Parse(CSI + "0m") == Some([Sgr(0)])
  {
    SgrReadsBack(0);
    assert RenderAll([Sgr(0)]) == CSI + "0m" by {
      assert NatToString(0) == "0";
    }
  }

  /** One `CSI n m` reads back as itself. */
  lemma SgrReadsBack(n: nat)
    ensures Parse(RenderAll([Sgr(n)])) == Some([Sgr(n)])
  {
    SgrAllReadsBack([n]);
    assert SgrAll([n]) == [Sgr(n)];
    ParseRenderAll([Sgr(n)]);
  }

  /** What `add` does to a set of codes: `ValueError` for `reset`, an
      `AssertionError` for an unknown name, else the code joins the set. */
  function AddTo(styles: set<nat>, name: string): (r: Result<set<nat>>)
    ensures name == "reset" ==> r == Failure(ValueError)
    ensures name != "reset" && name !in SgrStyles ==> r == Failure(AssertionError)
    ensures name != "reset" && name in SgrStyles ==> r.Success? && SgrStyles[name] in r.value
    ensures r.Success? ==> r.value - {SgrStyles[name]} == styles - {SgrStyles[name]}
  {
    if name == "reset" then Failure(ValueError)
    else if name !in SgrStyles then Failure(AssertionError)
    else Success(styles + {SgrStyles[name]})
  }

  /** What `remove` does: `KeyError` when the name is unknown or its code
      is not in the set, else the code leaves the set. */
  function RemoveFrom(styles: set<nat>, name: string): (r: Result<set<nat>>)
    ensures r.Failure? <==> name !in SgrStyles || SgrStyles[name] !in styles
    ensures r.Failure? ==> r.error == KeyError
    ensures r.Success? ==> SgrStyles[name] !in r.value && r.value + {SgrStyles[name]} == styles
  {
    if name !in SgrStyles || SgrStyles[name] !in styles then Failure(KeyError)
    else Success(styles - {SgrStyles[name]})
  }

  /** Adding a name twice is adding it once. */
  lemma AddIdempotent(styles: set<nat>, name: string)
    requires AddTo(styles, name).Success?
    ensures AddTo(AddTo(styles, name).value, name) == AddTo(styles, name)
  {
  }

  /** Adding a style that was not in the set and removing it again gives
      the set back. */
  lemma AddThenRemove(styles: set<nat>, name: string)
    requires AddTo(styles, name).Success? && SgrStyles[name] !in styles
    ensures RemoveFrom(AddTo(styles, name).value, name) == Success(styles)
  {
  }

  class Style {
    var styles: set<nat>

    /** Only codes of `sgr_styles`, and never `reset`. */
    ghost predicate Valid()
      reads this
    {
      forall c :: c in styles ==> c in SgrStyles.Values && c != 0
    }

    /** `Style()` with no names. */
    constructor ()
      ensures Valid() && styles == {}
    {
      styles := {};
    }

    /** `Style(*names)`: add each name in turn; the first failing `add`
        raises out of the constructor. */
    static method New(names: seq<string>) returns (st: Style, err: Option<Error>)
      ensures fresh(st) && st.Valid()
      ensures err.None? ==> forall i :: 0 <= i < |names| ==> AddTo({}, names[i]).Success?
      ensures err.None? ==> st.styles == set i | 0 <= i < |names| && names[i] in SgrStyles :: SgrStyles[names[i]]
      ensures err.Some? ==>
                exists k :: 0 <= k < |names| && AddTo({}, names[k]) == Failure(err.value) &&
                            forall j :: 0 <= j < k ==> AddTo({}, names[j]).Success?
    {
      st := new Style();
      var i := 0;
      while i < |names|
        invariant 0 <= i <= |names| && st.Valid()
        invariant forall j :: 0 <= j < i ==> AddTo({}, names[j]).Success?
        invariant st.styles == set j | 0 <= j < i && names[j] in SgrStyles :: SgrStyles[names[j]]
      {
        var e := st.Add(names[i]);
        if e.Some? {
          return st, e;
        }
        i := i + 1;
      }
      err := None;
    }

    /** `add`. */
    method Add(name: string) returns (err: Option<Error>)
      requires Valid()
      modifies this
      ensures Valid()
      ensures match AddTo(old(styles), name)
              case Success(s) => err.None? && styles == s
              case Failure(e) => err == Some(e) && styles == old(styles)
    {
      if name == "reset" {
        return Some(ValueError);
      }
      if name !in SgrStyles {
        return Some(AssertionError);
      }
      styles := styles + {SgrStyles[name]};
      return None;
    }

    /** `remove`. */
    method Remove(name: string) returns (err: Option<Error>)
      requires Valid()
      modifies this
      ensures Valid()
      ensures match RemoveFrom(old(styles), name)
              case Success(s) => err.None? && styles == s
              case Failure(e) => err == Some(e) && styles == old(styles)
    {
      if name !in SgrStyles || SgrStyles[name] !in styles {
        return Some(KeyError);
      }
      styles := styles - {SgrStyles[name]};
      return None;
    }

    /** `clear`. */
    method Clear()
      modifies this
      ensures Valid() && styles == {}
    {
      styles := {};
    }

    /** `ansi`. */
    function Ansi(): (s: string)
      reads this
      requires Valid()
      ensures s == AnsiOf(styles)
    {
      AnsiOf(styles)
    }
  }
}
