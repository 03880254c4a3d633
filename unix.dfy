/** The pure parts of adaptors/unix.py: reading the cursor position report
    (CPR, section 8.3.14 of ECMA-48) that answers `CSI 6n` (DSR, section
    8.3.35), and the retry loop of `get_size` reduced to the answers it
    reads. */
module Unix {
  import opened Wrappers
  import opened Text
  import opened Constants

  /** The length of the run of decimal digits at the front of `s`. */
  function DigitRun(s: string): (n: nat)
    ensures n <= |s|
    ensures AllDigits(s[..n])
    ensures n < |s| ==> !IsDigit(s[n])
  {
    if s != [] && IsDigit(s[0]) then
      var n := 1 + DigitRun(s[1..]);
      assert s[..n] == [s[0]] + s[1..][..n - 1];
      n
    else 0
  }

  lemma DigitRunOf(a: string, rest: string)
    requires AllDigits(a)
    requires rest != [] && !IsDigit(rest[0])
    ensures DigitRun(a + rest) == |a|
    decreases |a|
  {
    if a != [] {
      assert (a + rest)[1..] == a[1..] + rest;
      DigitRunOf(a[1..], rest);
    }
  }

  /** A reply of the form `ESC [ row ; col R` at the front of `s`. */
  ghost predicate CprReply(s: string, row: string, col: string) {
    && |row| > 0 && |col| > 0 && AllDigits(row) && AllDigits(col)
    && StartsWith(s, CSI + row + ";" + col + "R")
  }

  /** The match of `\x1b\[(\d+);(\d+)R` at the start of the reply and the
      `(col - 1, row - 1)` that `cursor_get_pos` returns; anything after
      the match is ignored, and no match raises `RuntimeError`. */
  function ParseCpr(s: string): (r: Result<(int, int)>)
    ensures r.Failure? ==> r.error == RuntimeError
    ensures r.Success? ==>
              exists row, col :: CprReply(s, row, col) &&
                r.value == (DigitsValue(col) - 1, DigitsValue(row) - 1)
  {
    if !StartsWith(s, CSI) then Failure(RuntimeError)
    else
      match CprFields(s[2..])
      case None => Failure(RuntimeError)
      case Some(f) =>
        var (row, col) := f;
        assert CprReply(s, row, col) by {
          var fields := row + ";" + col + "R";
          assert s[..2] == CSI && s[2..][..|fields|] == fields;
          assert s[..2 + |fields|] == s[..2] + s[2..][..|fields|];
          assert CSI + row + ";" + col + "R" == CSI + fields;
        }
        Success((DigitsValue(col) - 1, DigitsValue(row) - 1))
  }

  /** The groups `(\d+);(\d+)R` at the front of the text after `CSI`:
      the row and column digits. */
  function CprFields(t: string): (r: Option<(string, string)>)
    ensures r.Some? ==>
              && |r.value.0| > 0 && |r.value.1| > 0 && AllDigits(r.value.0) && AllDigits(r.value.1)
              && StartsWith(t, r.value.0 + ";" + r.value.1 + "R")
  {
    var n1 := DigitRun(t);
    if n1 == 0 || n1 == |t| || t[n1] != ';' then None
    else
      var t2 := t[n1 + 1..];
      var n2 := DigitRun(t2);
      if n2 == 0 || n2 == |t2| || t2[n2] != 'R' then None
      else
        assert t[..n1 + 1 + n2 + 1] == t[..n1] + [t[n1]] + t2[..n2] + [t2[n2]];
        Some((t[..n1], t2[..n2]))
  }

  /** The digit groups of a reply are read whole, whatever follows. */
  lemma CprFieldsOf(row: string, col: string, rest: string)
    requires |row| > 0 && |col| > 0 && AllDigits(row) && AllDigits(col)
    ensures CprFields(row + ";" + col + "R" + rest) == Some((row, col))
  {
    var t := row + ";" + col + "R" + rest;
    assert t == row + (";" + col + "R" + rest);
    assert DigitRun(t) == |row| && t[|row|] == ';' && t[..|row|] == row by {
      DigitRunOf(row, ";" + col + "R" + rest);
    }
    var t2 := t[|row| + 1..];
    assert t2 == col + ("R" + rest);
    assert DigitRun(t2) == |col| && t2[|col|] == 'R' && t2[..|col|] == col by {
      DigitRunOf(col, "R" + rest);
    }
  }

  /** Every reply of that form is read, whatever follows it. */
  lemma ParseCprComplete(s: string, row: string, col: string)
    requires CprReply(s, row, col)
    ensures ParseCpr(s) == Success((DigitsValue(col) - 1, DigitsValue(row) - 1))
  {
    var rest := CprReplySplit(s, row, col);
    CprFieldsOf(row, col, rest);
  }

  /** A reply of that form is CSI, then the fields, then the rest. */
  lemma CprReplySplit(s: string, row: string, col: string) returns (rest: string)
    requires CprReply(s, row, col)
    ensures StartsWith(s, CSI) && s[2..] == row + ";" + col + "R" + rest
  {
    var reply := CSI + row + ";" + col + "R";
    rest := s[|reply|..];
    assert s == reply + rest;
    assert s[..2] == CSI;
  }

  /** The position a terminal reports for column `x`, row `y` (zero
      based) reads back as `(x, y)`. */
  lemma CprRoundTrip(x: nat, y: nat, rest: string)
    ensures ParseCpr(CSI + NatToString(y + 1) + ";" + NatToString(x + 1) + "R" + rest) == Success((x, y))
  {
    var s := CSI + NatToString(y + 1) + ";" + NatToString(x + 1) + "R" + rest;
    assert StartsWith(s, CSI + NatToString(y + 1) + ";" + NatToString(x + 1) + "R");
    ParseCprComplete(s, NatToString(y + 1), NatToString(x + 1));
    DigitsValueOfNatToString(y + 1);
    DigitsValueOfNatToString(x + 1);
  }

  /** `f` inside `get_size`: `(x + 1, y + 1)` from the parsed position. */
  function SizeOf(reply: string): (r: Result<(int, int)>)
    ensures r.Success? <==> ParseCpr(reply).Success?
    ensures r.Success? ==> r.value == (ParseCpr(reply).value.0 + 1, ParseCpr(reply).value.1 + 1)
  {
    match ParseCpr(reply)
    case Success(p) => Success((p.0 + 1, p.1 + 1))
    case Failure(e) => Failure(e)
  }

  /** A terminal of `w` columns and `h` rows, asked after the cursor was
      sent to the far corner, reports row `h` and column `w`. */
  lemma SizeOfCornerReport(w: nat, h: nat)
    requires w >= 1 && h >= 1
    ensures SizeOf(CSI + NatToString(h) + ";" + NatToString(w) + "R") == Success((w, h))
  {
    var reply := CSI + NatToString(h) + ";" + NatToString(w) + "R";
    assert StartsWith(reply, reply);
    ParseCprComplete(reply, NatToString(h), NatToString(w));
    DigitsValueOfNatToString(h);
    DigitsValueOfNatToString(w);
  }

  /** How the retry loop of `get_size` ends. */
  datatype SizeOutcome =
    | Sized(w: int, h: int)
    | Failed(error: Error)
    /** Waiting on input for another answer, or retrying forever. */
    | Pending

  /** The loop as written: `tries` is never incremented, so a failed try
      is followed by another one whatever happened before. Each try reads
      one answer; the loop goes on while answers do not parse. */
  function SizeLoopAsWritten(answers: seq<string>): (r: SizeOutcome)
    ensures r.Failed? == false
    ensures r.Sized? <==> exists k :: 0 <= k < |answers| && SizeOf(answers[k]).Success?
  {
    if answers == [] then Pending
    else match SizeOf(answers[0])
      case Success(p) => Sized(p.0, p.1)
      case Failure(_) =>
        var r := SizeLoopAsWritten(answers[1..]);
        assert r.Sized? ==> exists k :: 0 <= k < |answers| && SizeOf(answers[k]).Success? by {
          if r.Sized? {
            var k :| 0 <= k < |answers[1..]| && SizeOf(answers[1..][k]).Success?;
            assert SizeOf(answers[k + 1]).Success?;
          }
        }
        assert (exists k :: 0 <= k < |answers| && SizeOf(answers[k]).Success?) ==> r.Sized? by {
          if exists k :: 0 <= k < |answers| && SizeOf(answers[k]).Success? {
            var k :| 0 <= k < |answers| && SizeOf(answers[k]).Success?;
            assert k != 0;
            assert SizeOf(answers[1..][k - 1]).Success?;
          }
        }
        r
  }

  /** Three answers that do not parse leave the loop as written still
      asking, where the `raise RuntimeError` after it says three tries
      were meant. */
  lemma SizeLoopNeverGivesUp()
    ensures SizeLoopAsWritten(["x", "x", "x"]) == Pending
    ensures SizeLoop(["x", "x", "x"], 3) == Failed(RuntimeError)
  {
    assert !StartsWith("x", CSI);
    assert ["x", "x", "x"][1..] == ["x", "x"];
    assert ["x", "x"][1..] == ["x"];
    assert ["x"][1..] == [];
  }

  /** The loop with `tries` counted: at most `tries` answers are read, the
      first that parses gives the size, and `RuntimeError` follows when
      none of them does. */
  function SizeLoop(answers: seq<string>, tries: nat): (r: SizeOutcome)
    ensures r.Failed? ==> r.error == RuntimeError && |answers| >= tries
  {
    if tries == 0 then Failed(RuntimeError)
    else if answers == [] then Pending
    else match SizeOf(answers[0])
      case Success(p) => Sized(p.0, p.1)
      case Failure(_) => SizeLoop(answers[1..], tries - 1)
  }

  /** The counted loop fails exactly when `tries` answers are read and
      none parses, and gives a size exactly when one of them parses. */
  lemma {:induction false} SizeLoopOutcome(answers: seq<string>, tries: nat)
    ensures SizeLoop(answers, tries).Failed? <==>
              |answers| >= tries && forall k :: 0 <= k < tries ==> SizeOf(answers[k]).Failure?
    ensures SizeLoop(answers, tries).Sized? <==>
              exists k :: 0 <= k < tries && k < |answers| && SizeOf(answers[k]).Success?
  {
    SizeLoopFails(answers, tries);
    SizeLoopSizes(answers, tries);
  }

  lemma {:induction false} SizeLoopFails(answers: seq<string>, tries: nat)
    ensures SizeLoop(answers, tries).Failed? <==>
              |answers| >= tries && forall k :: 0 <= k < tries ==> SizeOf(answers[k]).Failure?
  {
    if tries > 0 && answers != [] {
      if SizeOf(answers[0]).Failure? {
        SizeLoopFails(answers[1..], tries - 1);
        assert forall k :: 1 <= k < tries && k < |answers| ==> answers[1..][k - 1] == answers[k];
      }
    }
  }

  lemma {:induction false} SizeLoopSizes(answers: seq<string>, tries: nat)
    ensures SizeLoop(answers, tries).Sized? <==>
              exists k :: 0 <= k < tries && k < |answers| && SizeOf(answers[k]).Success?
  {
    if tries > 0 && answers != [] && SizeOf(answers[0]).Failure? {
      SizeLoopSizes(answers[1..], tries - 1);
      if SizeLoop(answers, tries).Sized? {
        var k :| 0 <= k < tries - 1 && k < |answers[1..]| && SizeOf(answers[1..][k]).Success?;
        assert SizeOf(answers[k + 1]).Success?;
      }
      if exists k :: 0 <= k < tries && k < |answers| && SizeOf(answers[k]).Success? {
        var k :| 0 <= k < tries && k < |answers| && SizeOf(answers[k]).Success?;
        assert SizeOf(answers[1..][k - 1]).Success?;
      }
    }
  }

  /** The index of the answer the counted loop stops on, with its
      outcome: the first answer that parses among the first `tries`. */
  lemma SizeLoopFirst(answers: seq<string>, tries: nat, k: nat)
    requires k < tries && k < |answers| && SizeOf(answers[k]).Success?
    requires forall j :: 0 <= j < k ==> SizeOf(answers[j]).Failure?
    ensures SizeLoop(answers, tries) == Sized(SizeOf(answers[k]).value.0, SizeOf(answers[k]).value.1)
    decreases k
  {
    if k > 0 {
      SizeLoopSkip(answers, tries);
      assert forall j :: 0 <= j < k - 1 ==> answers[1..][j] == answers[j + 1];
      SizeLoopFirst(answers[1..], tries - 1, k - 1);
    }
  }

  /** An answer that does not parse uses up one try. */
  lemma SizeLoopSkip(answers: seq<string>, tries: nat)
    requires tries > 0 && answers != [] && SizeOf(answers[0]).Failure?
    ensures SizeLoop(answers, tries) == SizeLoop(answers[1..], tries - 1)
  {
  }
}
