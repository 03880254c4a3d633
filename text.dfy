/** String helpers standing in for Python's `str(int)`, `int(str)`,
    `str * n`, `"".join(...)` and the ASCII part of `lower()`/`upper()`. */
module Text {

  predicate IsDigit(c: char) { '0' <= c <= '9' }

  predicate AllDigits(s: string) { forall i :: 0 <= i < |s| ==> IsDigit(s[i]) }

  function DigitChar(d: nat): (c: char)
    requires d < 10
    ensures IsDigit(c) && c as int - '0' as int == d
  {
    (('0' as int) + d) as char
  }

  /** `str(n)` for a non-negative int: decimal, no leading zeros. */
  function NatToString(n: nat): (s: string)
    ensures |s| >= 1 && AllDigits(s)
    ensures s[0] == '0' ==> n == 0
    decreases n
  {
    if n < 10 then [DigitChar(n)] else NatToString(n / 10) + [DigitChar(n % 10)]
  }

  /** `str(i)` for any int. */
  function IntToString(i: int): (s: string)
    ensures |s| >= 1
    ensures (s[0] == '-') == (i < 0)
  {
    if i < 0 then "-" + NatToString(-i) else NatToString(i)
  }

  /** `int(s)` for a non-empty run of ASCII decimal digits. */
  function DigitsValue(s: string): nat
    requires AllDigits(s)
  {
    if s == [] then 0
    else DigitsValue(s[..|s| - 1]) * 10 + (s[|s| - 1] as int - '0' as int)
  }

  lemma {:induction false} DigitsValueOfNatToString(n: nat)
    ensures DigitsValue(NatToString(n)) == n
    decreases n
  {
    var s := NatToString(n);
    if n >= 10 {
      DigitsValueOfNatToString(n / 10);
      assert s[..|s| - 1] == NatToString(n / 10);
    }
  }

  /** `s * n`: empty when `n <= 0`. */
  function Repeat(s: string, n: int): (r: string)
    ensures |r| == if n <= 0 then 0 else n * |s|
    decreases if n <= 0 then 0 else n
  {
    if n <= 0 then "" else s + Repeat(s, n - 1)
  }

  /** `"".join(parts)`. */
  function Concat(parts: seq<string>): (r: string)
    decreases |parts|
  {
    if parts == [] then "" else Concat(parts[..|parts| - 1]) + parts[|parts| - 1]
  }

  lemma {:induction false} ConcatAppend(a: seq<string>, b: seq<string>)
    ensures Concat(a + b) == Concat(a) + Concat(b)
    decreases |b|
  {
    if b == [] {
      assert a + b == a;
    } else {
      var init := b[..|b| - 1];
      assert (a + b)[..|a + b| - 1] == a + init;
      assert (a + b)[|a + b| - 1] == b[|b| - 1];
      calc {
        Concat(a + b);
        Concat(a + init) + b[|b| - 1];
        { ConcatAppend(a, init); }
        Concat(a) + Concat(init) + b[|b| - 1];
        Concat(a) + (Concat(init) + b[|b| - 1]);
        Concat(a) + Concat(b);
      }
    }
  }

  /** `sep.join(parts)`. */
  function Join(sep: string, parts: seq<string>): string
    decreases |parts|
  {
    if parts == [] then ""
    else if |parts| == 1 then parts[0]
    else Join(sep, parts[..|parts| - 1]) + sep + parts[|parts| - 1]
  }

  predicate StartsWith(s: string, prefix: string) {
    |prefix| <= |s| && s[..|prefix|] == prefix
  }

  predicate IsUpperAscii(c: char) { 'A' <= c <= 'Z' }
  predicate IsLowerAscii(c: char) { 'a' <= c <= 'z' }

  function LowerChar(c: char): char { if IsUpperAscii(c) then (c as int + 32) as char else c }
  function UpperChar(c: char): char { if IsLowerAscii(c) then (c as int - 32) as char else c }

  /** `s.lower()`, restricted to ASCII letters. */
  function Lower(s: string): (r: string)
    ensures |r| == |s|
    ensures forall i :: 0 <= i < |s| ==> r[i] == LowerChar(s[i])
  {
    seq(|s|, i requires 0 <= i < |s| => LowerChar(s[i]))
  }

  /** `s.upper()`, restricted to ASCII letters. */
  function Upper(s: string): (r: string)
    ensures |r| == |s|
    ensures forall i :: 0 <= i < |s| ==> r[i] == UpperChar(s[i])
  {
    seq(|s|, i requires 0 <= i < |s| => UpperChar(s[i]))
  }

  /** `s.isupper()`: some cased character and no lower-case one (ASCII). */
  predicate IsUpper(s: string) {
    (exists i :: 0 <= i < |s| && IsUpperAscii(s[i])) &&
    (forall i :: 0 <= i < |s| ==> !IsLowerAscii(s[i]))
  }

  predicate HasUpper(s: string) { exists i :: 0 <= i < |s| && IsUpperAscii(s[i]) }

  /** `s.replace(c, "")` for a single character `c`. */
  function RemoveChar(s: string, c: char): (r: string)
    ensures |r| <= |s|
    ensures c !in r
    ensures forall x :: x in r <==> x in s && x != c
  {
    if s == [] then ""
    else (if s[0] == c then "" else [s[0]]) + RemoveChar(s[1..], c)
  }

  /** `s.replace(pat, rep)` for a non-empty `pat`: occurrences are
      replaced left to right without overlapping. */
  function ReplaceAll(s: string, pat: string, rep: string): string
    requires |pat| > 0
    decreases |s|
  {
    if s == [] then ""
    else if StartsWith(s, pat) then rep + ReplaceAll(s[|pat|..], pat, rep)
    else [s[0]] + ReplaceAll(s[1..], pat, rep)
  }

  /** `list.index(x)`: the first position of `x`. */
  function IndexOf<T(==)>(xs: seq<T>, x: T): (i: nat)
    requires x in xs
    ensures i < |xs| && xs[i] == x
    ensures forall j :: 0 <= j < i ==> xs[j] != x
  {
    if xs[0] == x then 0 else 1 + IndexOf(xs[1..], x)
  }

  /** The last position of `c` in `s`. */
  function LastIndexOf(s: string, c: char): (i: nat)
    requires c in s
    ensures i < |s| && s[i] == c
    ensures forall j :: i < j < |s| ==> s[j] != c
  {
    if s[|s| - 1] == c then |s| - 1
    else
      assert c in s[..|s| - 1] by {
        var k :| 0 <= k < |s| && s[k] == c;
        assert s[..|s| - 1][k] == c;
      }
      LastIndexOf(s[..|s| - 1], c)
  }

  /** `s.split(sep)` for a one-character separator. */
  function Split(s: string, sep: char): (r: seq<string>)
    ensures |r| >= 1
    decreases |s|
  {
    if sep in s then
      var i := LastIndexOf(s, sep);
      Split(s[..i], sep) + [s[i + 1..]]
    else [s]
  }

  /** Splitting a join at its separator gives the parts back, when no part
      holds the separator. */
  lemma {:induction false} SplitJoin(parts: seq<string>, sep: char)
    requires |parts| >= 1
    requires forall k :: 0 <= k < |parts| ==> sep !in parts[k]
    ensures Split(Join([sep], parts), sep) == parts
    decreases |parts|
  {
    if |parts| == 1 {
    } else {
      var init := parts[..|parts| - 1];
      var last := parts[|parts| - 1];
      assert Join([sep], parts) == Join([sep], init) + [sep] + last;
      SplitLast(Join([sep], init), last, sep);
      SplitJoin(init, sep);
    }
  }

  /** The last separator splits off the last field. */
  lemma SplitLast(front: string, last: string, sep: char)
    requires sep !in last
    ensures Split(front + [sep] + last, sep) == Split(front, sep) + [last]
  {
    var s := front + [sep] + last;
    var n := |front|;
    assert s[n] == sep;
    var i := LastIndexOf(s, sep);
    assert i == n;
    assert s[..i] == front;
    assert s[i + 1..] == last;
  }

  lemma JoinThree(a: string, b: string, c: string)
    ensures Join([';'], [a, b, c]) == a + ";" + b + ";" + c
  {
    assert [a, b, c][..2] == [a, b];
    assert [a, b][..1] == [a];
    assert Join([';'], [a]) == a;
    assert Join([';'], [a, b]) == a + ";" + b;
  }

  lemma JoinFive(a: string, b: string, c: string, d: string, e: string)
    ensures Join([';'], [a, b, c, d, e]) == a + ";" + b + ";" + c + ";" + d + ";" + e
  {
    assert [a, b, c, d, e][..4] == [a, b, c, d];
    assert [a, b, c, d][..3] == [a, b, c];
    JoinThree(a, b, c);
    assert Join([';'], [a, b, c, d]) == a + ";" + b + ";" + c + ";" + d;
  }

  lemma LowerOfLower(s: string)
    requires forall i :: 0 <= i < |s| ==> !IsUpperAscii(s[i])
    ensures Lower(s) == s
  {
  }

  lemma {:induction false} RemoveAbsentChar(s: string, c: char)
    requires c !in s
    ensures RemoveChar(s, c) == s
  {
    if s != [] {
      RemoveAbsentChar(s[1..], c);
    }
  }

  /** `replace` leaves a string without an occurrence unchanged. */
  lemma {:induction false} ReplaceAbsent(s: string, pat: string, rep: string)
    requires |pat| > 0
    requires forall k :: 0 <= k <= |s| ==> !StartsWith(s[k..], pat)
    ensures ReplaceAll(s, pat, rep) == s
    decreases |s|
  {
    if s != [] {
      assert s[0..] == s;
      forall k | 0 <= k <= |s[1..]|
        ensures !StartsWith(s[1..][k..], pat)
      {
        assert s[1..][k..] == s[k + 1..];
      }
      ReplaceAbsent(s[1..], pat, rep);
    }
  }

  /** A pattern whose first two characters never appear side by side in
      `s` occurs nowhere in `s`. */
  lemma NoOccurrence(s: string, pat: string)
    requires |pat| >= 2
    requires forall k :: 0 <= k < |s| - 1 ==> !(s[k] == pat[0] && s[k + 1] == pat[1])
    ensures forall k :: 0 <= k <= |s| ==> !StartsWith(s[k..], pat)
  {
    forall k | 0 <= k <= |s|
      ensures !StartsWith(s[k..], pat)
    {
      if |pat| <= |s[k..]| {
        assert s[k..][..|pat|][0] == s[k] && s[k..][..|pat|][1] == s[k + 1];
      }
    }
  }

  predicate Distinct<T(==)>(xs: seq<T>) {
    forall j, k :: 0 <= j < k < |xs| ==> xs[j] != xs[k]
  }

  /** In a list without repetitions, `index` finds each element at its
      own position. */
  lemma IndexOfDistinct<T>(xs: seq<T>, i: nat)
    requires Distinct(xs) && i < |xs|
    ensures IndexOf(xs, xs[i]) == i
  {
    var k := IndexOf(xs, xs[i]);
    assert !(k < i) && !(i < k);
  }

  lemma JoinTwo(a: string, b: string)
    ensures Join([';'], [a, b]) == a + ";" + b
  {
    assert [a, b][..1] == [a];
  }

  /** Concatenation peels off its first part. */
  lemma ConcatCons(a: string, rest: seq<string>)
    ensures Concat([a] + rest) == a + Concat(rest)
  {
    ConcatAppend([a], rest);
    assert [a][..0] == [];
  }

  /** The decimal forms of a list of numbers. */
  function NatStrings(ns: seq<nat>): (r: seq<string>)
    ensures |r| == |ns|
    ensures forall i :: 0 <= i < |ns| ==> r[i] == NatToString(ns[i])
  {
    seq(|ns|, i requires 0 <= i < |ns| => NatToString(ns[i]))
  }

  /** Concatenations of two and three parts. */
  lemma ConcatSmall(a: string, b: string, c: string)
    ensures Concat([a]) == a
    ensures Concat([a, b]) == a + b
    ensures Concat([a, b, c]) == a + b + c
  {
    assert [a, b, c][..2] == [a, b];
    assert [a, b][..1] == [a];
    assert [a][..0] == [];
  }

  lemma ConcatFive(a: string, b: string, c: string, d: string, e: string)
    ensures Concat([a, b, c, d, e]) == a + b + c + d + e
  {
    assert [a, b, c, d, e][..4] == [a, b, c, d];
    assert [a, b, c, d][..3] == [a, b, c];
    ConcatSmall(a, b, c);
  }
}
