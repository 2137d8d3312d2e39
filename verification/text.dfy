/** Python string primitives the core relies on: whitespace stripping, ASCII lowering,
    line splitting, joining, and decimal conversion of integers in both directions. */
module Text {
  import opened Wrappers
  import Sequences

  /** Python's `str.isspace()` set, which is also what `\s` matches in a `str` regular expression. */
  predicate IsSpace(c: char) {
    var n := c as int;
    (9 <= n <= 13) || (28 <= n <= 32) || n == 0x85 || n == 0xA0 || n == 0x1680
    || (0x2000 <= n <= 0x200A) || n == 0x2028 || n == 0x2029 || n == 0x202F
    || n == 0x205F || n == 0x3000
  }

  /** Line terminators of a file read in text mode (universal newlines: `\n`, `\r`, `\r\n`). */
  predicate IsLineBreak(c: char) {
    c == '\n' || c == '\r'
  }

  predicate HasLineBreak(s: string) {
    exists i :: 0 <= i < |s| && IsLineBreak(s[i])
  }

  predicate IsDigit(c: char) {
    '0' as int <= c as int <= '9' as int
  }

  function DigitValue(c: char): (d: nat)
    requires IsDigit(c)
    ensures d < 10
  {
    (c as int) - ('0' as int)
  }

  /** `a` occurs contiguously inside `b`. */
  ghost predicate IsInfix(a: string, b: string) {
    exists i :: InfixAt(a, b, i)
  }

  /** `a` occurs inside `b` starting at position `i`. */
  predicate InfixAt(a: string, b: string, i: int) {
    0 <= i <= |b| - |a| && b[i..i + |a|] == a
  }

  lemma InfixOfConcat(a: string, pre: string, post: string)
    ensures IsInfix(a, pre + a + post)
  {
    var b := pre + a + post;
    assert InfixAt(a, b, |pre|);
  }

  lemma InfixOfPrefix(a: string, b: string)
    ensures IsInfix(a, a + b)
  {
    assert (a + b)[0..|a|] == a;
    assert InfixAt(a, a + b, 0);
  }

  lemma InfixTransitive(a: string, b: string, c: string)
    requires IsInfix(a, b) && IsInfix(b, c)
    ensures IsInfix(a, c)
  {
    var i :| InfixAt(a, b, i);
    var j :| InfixAt(b, c, j);
    var inC := c[j + i..j + i + |a|];
    var inB := b[i..i + |a|];
    forall k | 0 <= k < |a|
      ensures inC[k] == inB[k]
    {
      assert c[j..j + |b|][i + k] == b[i + k];
    }
    assert inC == inB;
    assert InfixAt(a, c, j + i);
  }

  // ---------------------------------------------------------------- stripping

  /** `s` without its leading whitespace. */
  function TrimStart(s: string): (r: string)
    ensures |r| <= |s| && r == s[|s| - |r|..]
    ensures |r| > 0 ==> !IsSpace(r[0])
    ensures forall k | 0 <= k < |s| - |r| :: IsSpace(s[k])
  {
    if |s| > 0 && IsSpace(s[0]) then
      var r := TrimStart(s[1..]);
      assert s[1..][|s| - 1 - |r|..] == s[|s| - |r|..];
      assert forall k | 1 <= k < |s| - |r| :: s[1..][k - 1] == s[k];
      r
    else s
  }

  /** `s` without its trailing whitespace. */
  function TrimEnd(s: string): (r: string)
    ensures |r| <= |s| && r == s[..|r|]
    ensures |r| > 0 ==> !IsSpace(r[|r| - 1])
    ensures forall k | |r| <= k < |s| :: IsSpace(s[k])
  {
    if |s| > 0 && IsSpace(s[|s| - 1]) then
      var r := TrimEnd(s[..|s| - 1]);
      assert s[..|s| - 1][..|r|] == s[..|r|];
      assert forall k | |r| <= k < |s| - 1 :: s[..|s| - 1][k] == s[k];
      r
    else s
  }

  /** Every character of `s` is whitespace (vacuously so for the empty string). */
  predicate AllSpace(s: string) {
    forall k | 0 <= k < |s| :: IsSpace(s[k])
  }

  /** Python's `str.strip()` with no argument. */
  function Strip(s: string): (r: string)
    ensures |r| <= |s|
    ensures |r| > 0 ==> !IsSpace(r[0]) && !IsSpace(r[|r| - 1])
    ensures IsInfix(r, s)
    ensures AllSpace(s) <==> r == ""
  {
    var t := TrimStart(s);
    TrimmedInside(s, t, TrimEnd(t));
    TrimmedEmpty(s, t, TrimEnd(t));
    TrimEnd(t)
  }

  lemma TrimmedInside(s: string, t: string, r: string)
    requires t == TrimStart(s) && r == TrimEnd(t)
    ensures IsInfix(r, s)
  {
    var offset := |s| - |t|;
    assert s[offset..offset + |r|] == t[..|r|];
    assert InfixAt(r, s, offset);
  }

  lemma TrimmedEmpty(s: string, t: string, r: string)
    requires t == TrimStart(s) && r == TrimEnd(t)
    ensures AllSpace(s) <==> r == ""
  {
    if r == "" {
      assert t == "";
    } else {
      assert !IsSpace(t[0]);
    }
  }

  /** A string that starts and ends with a non-space is its own strip. */
  lemma StripOfTrimmed(s: string)
    requires |s| > 0 ==> !IsSpace(s[0]) && !IsSpace(s[|s| - 1])
    ensures Strip(s) == s
  {
  }

  /** Stripping is idempotent. */
  lemma StripIdempotent(s: string)
    ensures Strip(Strip(s)) == Strip(s)
  {
    StripOfTrimmed(Strip(s));
  }

  /** Stripping never introduces a line break. */
  lemma StripKeepsNoLineBreak(s: string)
    requires !HasLineBreak(s)
    ensures !HasLineBreak(Strip(s))
  {
    var r := Strip(s);
    var i :| InfixAt(r, s, i);
    forall k | 0 <= k < |r|
      ensures !IsLineBreak(r[k])
    {
      assert r[k] == s[i..i + |r|][k] == s[i + k];
    }
  }

  /** Stripping one leading space off a space-free-ended string. */
  lemma StripLeadingSpace(s: string)
    requires |s| > 0 && !IsSpace(s[0]) && !IsSpace(s[|s| - 1])
    ensures Strip(" " + s) == s
  {
    assert (" " + s)[1..] == s;
  }

  // ---------------------------------------------------------------- lowering

  function LowerChar(c: char): char {
    if 'A' <= c <= 'Z' then (c as int + 32) as char else c
  }

  /** Case folding used as the word-bank key (ASCII letters only). */
  function Lower(s: string): (r: string)
    ensures |r| == |s|
  {
    if |s| == 0 then "" else [LowerChar(s[0])] + Lower(s[1..])
  }

  // ---------------------------------------------------------------- lines and joining

  /** Position of the first line terminator of `s`, if any. */
  function FirstLineBreak(s: string): (r: Option<nat>)
    ensures r.Some? ==> r.value < |s| && IsLineBreak(s[r.value])
                        && forall k | 0 <= k < r.value :: !IsLineBreak(s[k])
    ensures r.None? <==> !HasLineBreak(s)
  {
    if |s| == 0 then None
    else if IsLineBreak(s[0]) then Some(0)
    else match FirstLineBreak(s[1..])
      case None => None
      case Some(i) => Some(i + 1)
  }

  /** The pieces of `s` between line terminators (the last piece may be empty). */
  function Lines(s: string): (r: seq<string>)
    ensures |r| > 0
    ensures forall k | 0 <= k < |r| :: !HasLineBreak(r[k])
    decreases |s|
  {
    match FirstLineBreak(s)
    case None => [s]
    case Some(i) => [s[..i]] + Lines(s[i + 1..])
  }

  /** A line without terminators followed by a newline is split off as one piece. */
  lemma LinesCons(line: string, rest: string)
    requires !HasLineBreak(line)
    ensures Lines(line + "\n" + rest) == [line] + Lines(rest)
  {
    var s := line + "\n" + rest;
    assert s[|line|] == '\n';
    forall k | 0 <= k < |line|
      ensures !IsLineBreak(s[k])
    {
      assert s[k] == line[k];
    }
    assert FirstLineBreak(s) == Some(|line|);
    assert s[..|line|] == line;
    assert s[|line| + 1..] == rest;
  }

  lemma LinesOfEmpty()
    ensures Lines("") == [""]
  {
    assert FirstLineBreak("") == None;
  }

  /** Splitting text that continues after a newline splits the two parts independently. */
  lemma {:induction false} LinesAppend(a: string, b: string)
    ensures Lines(a + "\n" + b) == Lines(a) + Lines(b)
    decreases |a|
  {
    match FirstLineBreak(a)
    case None => LinesCons(a, b);
    case Some(i) =>
      var s := a + "\n" + b;
      BreakKept(a, b, i);
      var tail := a[i + 1..];
      assert Lines(s) == [a[..i]] + Lines(tail + "\n" + b);
      assert Lines(a) == [a[..i]] + Lines(tail);
      LinesAppend(tail, b);
      Sequences.ConcatAssoc([a[..i]], Lines(tail), Lines(b));
  }

  lemma BreakKept(a: string, b: string, i: nat)
    requires FirstLineBreak(a) == Some(i)
    ensures FirstLineBreak(a + "\n" + b) == Some(i)
    ensures (a + "\n" + b)[..i] == a[..i]
    ensures (a + "\n" + b)[i + 1..] == a[i + 1..] + "\n" + b
  {
    var s := a + "\n" + b;
    forall k | 0 <= k <= i
      ensures s[k] == a[k]
    {
    }
  }

  /** Python's `sep.join(xs)`. */
  function Join(xs: seq<string>, sep: string): string {
    if |xs| == 0 then ""
    else if |xs| == 1 then xs[0]
    else xs[0] + sep + Join(xs[1..], sep)
  }

  /** Every joined element occurs inside the joined string. */
  lemma {:induction false} JoinHasEach(xs: seq<string>, sep: string, i: nat)
    requires i < |xs|
    ensures IsInfix(xs[i], Join(xs, sep))
  {
    if |xs| == 1 {
      InfixOfConcat(xs[0], "", "");
      assert "" + xs[0] + "" == xs[0];
    } else if i == 0 {
      InfixOfConcat(xs[0], "", sep + Join(xs[1..], sep));
      assert "" + xs[0] + (sep + Join(xs[1..], sep)) == Join(xs, sep);
    } else {
      JoinHasEach(xs[1..], sep, i - 1);
      InfixOfConcat(Join(xs[1..], sep), xs[0] + sep, "");
      assert xs[0] + sep + Join(xs[1..], sep) + "" == Join(xs, sep);
      InfixTransitive(xs[i], Join(xs[1..], sep), Join(xs, sep));
    }
  }

  /** The pieces written one after another. */
  function Concat(parts: seq<string>): string {
    if |parts| == 0 then "" else parts[0] + Concat(parts[1..])
  }

  /** The concatenation of seven pieces, as nested appends. */
  lemma ConcatSeven(a: string, b: string, c: string, d: string, e: string, f: string, g: string)
    ensures Concat([a, b, c, d, e, f, g]) == a + (b + (c + (d + (e + (f + g)))))
  {
    assert [g][1..] == [];
    assert Concat([g]) == g;
    assert [f, g][1..] == [g];
    assert Concat([f, g]) == f + g;
    assert [e, f, g][1..] == [f, g];
    assert Concat([e, f, g]) == e + (f + g);
    assert [d, e, f, g][1..] == [e, f, g];
    assert Concat([d, e, f, g]) == d + (e + (f + g));
    assert [c, d, e, f, g][1..] == [d, e, f, g];
    assert Concat([c, d, e, f, g]) == c + (d + (e + (f + g)));
    assert [b, c, d, e, f, g][1..] == [c, d, e, f, g];
    assert Concat([b, c, d, e, f, g]) == b + (c + (d + (e + (f + g))));
    assert [a, b, c, d, e, f, g][1..] == [b, c, d, e, f, g];
  }

  /** Every piece occurs inside the concatenation. */
  lemma {:induction false} ConcatHasEach(parts: seq<string>, i: nat)
    requires i < |parts|
    ensures IsInfix(parts[i], Concat(parts))
  {
    if i == 0 {
      InfixOfConcat(parts[0], "", Concat(parts[1..]));
      assert "" + parts[0] + Concat(parts[1..]) == Concat(parts);
    } else {
      ConcatHasEach(parts[1..], i - 1);
      InfixOfConcat(Concat(parts[1..]), parts[0], "");
      assert parts[0] + Concat(parts[1..]) + "" == Concat(parts);
      InfixTransitive(parts[i], Concat(parts[1..]), Concat(parts));
    }
  }

  // ---------------------------------------------------------------- integers

  function DigitChar(d: nat): (c: char)
    requires d < 10
    ensures IsDigit(c) && DigitValue(c) == d
  {
    ('0' as int + d) as char
  }

  /** Python's `str(n)` for a non-negative integer. */
  function NatToString(n: nat): (r: string)
    ensures |r| > 0
    ensures forall k | 0 <= k < |r| :: IsDigit(r[k])
    decreases n
  {
    if n < 10 then [DigitChar(n)] else NatToString(n / 10) + [DigitChar(n % 10)]
  }

  /** Python's `str(i)` (and the `{i}` of an f-string) for an integer. */
  function IntToString(i: int): (r: string)
    ensures |r| > 0 && !IsSpace(r[0]) && !IsSpace(r[|r| - 1])
    ensures !HasLineBreak(r)
    ensures forall k | 0 <= k < |r| :: r[k] != ':'
    ensures forall k | 0 <= k < |r| :: IsDigit(r[k]) || r[k] == '-'
  {
    if i < 0 then "-" + NatToString(-i) else NatToString(i)
  }

  /** Printing integers loses nothing: different integers print differently. */
  lemma IntToStringInjective(a: int, b: int)
    requires IntToString(a) == IntToString(b)
    ensures a == b
  {
    IntToStringRoundTrip(a);
    IntToStringRoundTrip(b);
  }

  /** Two texts that agree after a common prefix agree on the rest. */
  lemma PrefixCancel(p: string, x: string, y: string)
    requires p + x == p + y
    ensures x == y
  {
    assert x == (p + x)[|p|..];
    assert y == (p + y)[|p|..];
  }

  /** After a common prefix, a printed integer followed by a part that begins with a blank is
      read back: the integers agree, and so do the parts after them. */
  lemma NumberThenBlank(p: string, n1: int, s1: string, n2: int, s2: string)
    requires p + (IntToString(n1) + s1) == p + (IntToString(n2) + s2)
    requires |s1| > 0 && s1[0] == ' ' && |s2| > 0 && s2[0] == ' '
    ensures n1 == n2 && s1 == s2
  {
    PrefixCancel(p, IntToString(n1) + s1, IntToString(n2) + s2);
    SplitAtBlank(IntToString(n1), s1, IntToString(n2), s2);
    IntToStringInjective(n1, n2);
  }

  /** Two texts that agree before a common suffix agree on the rest. */
  lemma SuffixCancel(x: string, y: string, q: string)
    requires x + q == y + q
    ensures x == y
  {
    assert x == (x + q)[..|x|];
    assert y == (y + q)[..|y|];
  }

  lemma NotShorter(x1: string, s1: string, x2: string, s2: string)
    requires x1 + s1 == x2 + s2
    requires forall k | 0 <= k < |x2| :: x2[k] != ' '
    requires |s1| > 0 && s1[0] == ' '
    ensures |x1| >= |x2|
  {
    var t := x1 + s1;
    assert t[|x1|] == ' ';
  }

  /** A text `x` without a blank, followed by a part that begins with one, is recovered: the
      first blank marks where `x` ends. */
  lemma SplitAtBlank(x1: string, s1: string, x2: string, s2: string)
    requires x1 + s1 == x2 + s2
    requires forall k | 0 <= k < |x1| :: x1[k] != ' '
    requires forall k | 0 <= k < |x2| :: x2[k] != ' '
    requires |s1| > 0 && s1[0] == ' ' && |s2| > 0 && s2[0] == ' '
    ensures x1 == x2 && s1 == s2
  {
    NotShorter(x1, s1, x2, s2);
    NotShorter(x2, s2, x1, s1);
    assert x1 == (x1 + s1)[..|x1|];
    assert x2 == (x2 + s2)[..|x2|];
    assert s1 == (x1 + s1)[|x1|..];
    assert s2 == (x2 + s2)[|x2|..];
  }

  /** The digits of `s` read in base ten, `_` separators skipped. */
  function DigitsValue(s: string): nat
    requires forall k | 0 <= k < |s| :: IsDigit(s[k]) || s[k] == '_'
  {
    if |s| == 0 then 0
    else
      var last := s[|s| - 1];
      var prefix := DigitsValue(s[..|s| - 1]);
      if last == '_' then prefix else prefix * 10 + DigitValue(last)
  }

  /** The digit strings Python's `int()` accepts: digits, single `_` only between digits. */
  predicate IsNumeral(s: string) {
    && |s| > 0
    && IsDigit(s[0]) && IsDigit(s[|s| - 1])
    && (forall k | 0 <= k < |s| :: IsDigit(s[k]) || s[k] == '_')
    && (forall k | 0 <= k < |s| - 1 :: !(s[k] == '_' && s[k + 1] == '_'))
  }

  /** Python's `int(s)` on an already stripped string; `None` where Python raises `ValueError`. */
  function ParseInt(s: string): (r: Option<int>)
    ensures r.Some? ==> exists k :: 0 <= k < |s| && IsDigit(s[k])
  {
    if |s| > 0 && (s[0] == '-' || s[0] == '+') then
      var body := s[1..];
      if IsNumeral(body) then
        assert IsDigit(s[1]);
        var magnitude: int := DigitsValue(body);
        Some(if s[0] == '-' then -magnitude else magnitude)
      else None
    else if IsNumeral(s) then Some(DigitsValue(s))
    else None
  }

  lemma {:induction false} NatToStringValue(n: nat)
    ensures DigitsValue(NatToString(n)) == n
    decreases n
  {
    var s := NatToString(n);
    if n >= 10 {
      NatToStringValue(n / 10);
      assert s[..|s| - 1] == NatToString(n / 10);
    }
  }

  lemma NatToStringNumeral(n: nat)
    ensures IsNumeral(NatToString(n))
  {
    var s := NatToString(n);
    assert IsDigit(s[0]) && IsDigit(s[|s| - 1]);
  }

  /** Reading back a printed integer gives the integer. */
  lemma IntToStringRoundTrip(i: int)
    ensures ParseInt(IntToString(i)) == Some(i)
  {
    if i < 0 {
      NegativeRoundTrip(-i);
    } else {
      NatRoundTrip(i);
    }
  }

  lemma NatRoundTrip(n: nat)
    ensures ParseInt(NatToString(n)) == Some(n)
  {
    var s := NatToString(n);
    NatToStringNumeral(n);
    NatToStringValue(n);
    assert IsDigit(s[0]);
    assert s[0] != '-' && s[0] != '+';
  }

  lemma NegativeRoundTrip(n: nat)
    ensures ParseInt("-" + NatToString(n)) == Some(-(n as int))
  {
    var digits := NatToString(n);
    var s := "-" + digits;
    assert s[0] == '-' && s[1..] == digits;
    NatToStringNumeral(n);
    NatToStringValue(n);
  }
}
