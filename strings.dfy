/**
 * The parts of Python's `str` that the program relies on, written over
 * `string` (a sequence of Unicode scalar values, as a Python `str` is).
 */
module Strings {

  /** `str.isspace` for one character: what `strip()` removes. */
  predicate IsSpace(c: char) {
    || ('\t' <= c <= '\r')
    || ('\U{1C}' <= c <= ' ')
    || c == '\U{85}' || c == '\U{A0}' || c == '\U{1680}'
    || ('\U{2000}' <= c <= '\U{200A}')
    || c == '\U{2028}' || c == '\U{2029}' || c == '\U{202F}' || c == '\U{205F}' || c == '\U{3000}'
  }

  /** The line boundaries of `str.splitlines` (`\r\n` counts as one). */
  predicate IsLineBreak(c: char) {
    || ('\n' <= c <= '\r')
    || ('\U{1C}' <= c <= '\U{1E}')
    || c == '\U{85}' || c == '\U{2028}' || c == '\U{2029}'
  }

  predicate IsDigit(c: char) { '0' <= c <= '9' }

  predicate IsAsciiLetter(c: char) { 'A' <= c <= 'Z' || 'a' <= c <= 'z' }

  /** The class `[A-Za-z0-9]`. */
  predicate IsAsciiAlnum(c: char) { IsAsciiLetter(c) || IsDigit(c) }

  /** The class `[一-龥]`: the CJK unified ideographs the program recognises. */
  predicate IsCjk(c: char) { '\U{4E00}' <= c <= '\U{9FA5}' }

  predicate IsBlank(s: string) { forall i :: 0 <= i < |s| ==> IsSpace(s[i]) }

  /** Neither end of `s` is white space. */
  predicate Stripped(s: string) { s == [] || (!IsSpace(s[0]) && !IsSpace(s[|s| - 1])) }

  predicate StartsWith(s: string, p: string) { |p| <= |s| && s[..|p|] == p }

  predicate EndsWith(s: string, p: string) { |p| <= |s| && s[|s| - |p|..] == p }

  /** `p in s` for strings: `p` occurs somewhere in `s`. */
  predicate Contains(s: string, p: string)
    decreases |s|
  {
    StartsWith(s, p) || (s != [] && Contains(s[1..], p))
  }

  /** `str.lstrip()`. */
  function LStrip(s: string): (r: string)
    ensures |r| <= |s| && r == s[|s| - |r|..]
    ensures r != [] ==> !IsSpace(r[0])
    ensures forall i :: 0 <= i < |s| - |r| ==> IsSpace(s[i])
    decreases |s|
  {
    if s != [] && IsSpace(s[0]) then LStrip(s[1..]) else s
  }

  /** `str.rstrip()`. */
  function RStrip(s: string): (r: string)
    ensures |r| <= |s| && r == s[..|r|]
    ensures r != [] ==> !IsSpace(r[|r| - 1])
    ensures forall i :: |r| <= i < |s| ==> IsSpace(s[i])
    decreases |s|
  {
    if s != [] && IsSpace(s[|s| - 1]) then RStrip(s[..|s| - 1]) else s
  }

  /** `str.strip()`. */
  function Strip(s: string): (r: string)
    ensures Stripped(r) && |r| <= |s|
    ensures r == [] <==> IsBlank(s)
  {
    var l := LStrip(s);
    assert l != [] ==> l[0] == s[|s| - |l|];
    var r := RStrip(l);
    assert r == [] ==> l == [];
    r
  }

  /** Stripping only removes characters. */
  lemma StripKeepsAbsent(s: string, x: char)
    requires x !in s
    ensures x !in Strip(s)
  {
    StripChars(s);
  }

  /** A string without `c` has no occurrence of `[c]`. */
  lemma NoCharNoMatch(s: string, c: char)
    requires c !in s
    ensures !Contains(s, [c])
  {
    if Contains(s, [c]) {
      ContainsHead(s, [c]);
    }
  }

  /** Every character of the stripped string comes from the original. */
  lemma StripChars(s: string)
    ensures forall i :: 0 <= i < |Strip(s)| ==> Strip(s)[i] in s
  {
    var l := LStrip(s);
    var r := RStrip(l);
    forall i | 0 <= i < |r|
      ensures r[i] in s
    {
      var j := |s| - |l| + i;
      assert r[i] == l[i] == s[j];
    }
  }

  lemma StripStripped(t: string)
    ensures Stripped(t) ==> Strip(t) == t
  {
  }

  lemma StripIdempotent(s: string)
    ensures Strip(Strip(s)) == Strip(s)
  {
    StripStripped(Strip(s));
  }

  /** A space put in front of a stripped string is stripped off again. */
  lemma StripLeadingSpace(t: string)
    requires Stripped(t)
    ensures Strip([' '] + t) == t
  {
    var s := [' '] + t;
    assert IsSpace(s[0]) && s[1..] == t;
    assert LStrip(s) == LStrip(t) == t;
    assert RStrip(t) == t;
  }

  /** Leading white space before a non-space start is all `lstrip` removes. */
  lemma {:induction false} LStripBlankPrefix(a: string, t: string)
    requires IsBlank(a) && (t == [] || !IsSpace(t[0]))
    ensures LStrip(a + t) == t
    decreases |a|
  {
    if a == [] {
      assert a + t == t;
    } else {
      assert (a + t)[0] == a[0] && (a + t)[1..] == a[1..] + t;
      LStripBlankPrefix(a[1..], t);
    }
  }

  /** Trailing white space after a non-space end is all `rstrip` removes. */
  lemma {:induction false} RStripBlankSuffix(t: string, b: string)
    requires IsBlank(b) && (t == [] || !IsSpace(t[|t| - 1]))
    ensures RStrip(t + b) == t
    decreases |b|
  {
    if b == [] {
      assert t + b == t;
    } else {
      var n := |b| - 1;
      assert (t + b)[..|t + b| - 1] == t + b[..n];
      RStripBlankSuffix(t, b[..n]);
    }
  }

  /** `strip()` takes back exactly the white space put around a stripped string. */
  lemma StripSurrounded(a: string, x: string, b: string)
    requires IsBlank(a) && IsBlank(b) && x != [] && Stripped(x)
    ensures Strip(a + x + b) == x
  {
    assert a + x + b == a + (x + b);
    LStripBlankPrefix(a, x + b);
    RStripBlankSuffix(x, b);
  }

  lemma HeadTail(p: string, x: string)
    requires p != []
    ensures [p[0]] + (p[1..] + x) == p + x
  {
    assert [p[0]] + p[1..] == p;
  }

  /** `str.lstrip(c)` for one character `c`. */
  function LStripChar(s: string, c: char): (r: string)
    ensures |r| <= |s| && r == s[|s| - |r|..]
    ensures r != [] ==> r[0] != c
    ensures forall i :: 0 <= i < |s| - |r| ==> s[i] == c
    decreases |s|
  {
    if s != [] && s[0] == c then LStripChar(s[1..], c) else s
  }

  /** `str.rstrip(c)` for one character `c`. */
  function RStripChar(s: string, c: char): (r: string)
    ensures |r| <= |s| && r == s[..|r|]
    ensures r != [] ==> r[|r| - 1] != c
    ensures forall i :: |r| <= i < |s| ==> s[i] == c
    decreases |s|
  {
    if s != [] && s[|s| - 1] == c then RStripChar(s[..|s| - 1], c) else s
  }

  /** `str.strip(c)` for one character `c`. */
  function StripChar(s: string, c: char): (r: string)
    ensures r == [] || (r[0] != c && r[|r| - 1] != c)
  {
    RStripChar(LStripChar(s, c), c)
  }

  /** Stripping a character only removes characters. */
  lemma StripCharKeepsAbsent(s: string, c: char, x: char)
    requires x !in s
    ensures x !in StripChar(s, c)
  {
    var l := LStripChar(s, c);
    var r := RStripChar(l, c);
    assert forall i :: 0 <= i < |r| ==> r[i] == l[i] == s[|s| - |l| + i];
  }

  /** Stripping a character keeps a run of the original's characters. */
  lemma StripCharChars(s: string, c: char)
    ensures forall i :: 0 <= i < |StripChar(s, c)| ==> StripChar(s, c)[i] in s
  {
    var l := LStripChar(s, c);
    var r := RStripChar(l, c);
    assert r == StripChar(s, c);
    forall i | 0 <= i < |r|
      ensures r[i] in s
    {
      var j := |s| - |l| + i;
      assert r[i] == l[i] == s[j];
    }
  }

  /** `s.replace(pat, rep)`: every non-overlapping occurrence, scanning left to right. */
  function ReplaceAll(s: string, pat: string, rep: string): (r: string)
    requires pat != []
    decreases |s|
  {
    if s == [] then []
    else if StartsWith(s, pat) then rep + ReplaceAll(s[|pat|..], pat, rep)
    else [s[0]] + ReplaceAll(s[1..], pat, rep)
  }

  /** Replacing one character by another maps the string character by character. */
  lemma {:induction false} ReplaceChar(s: string, c: char, d: char)
    ensures |ReplaceAll(s, [c], [d])| == |s|
    ensures forall i :: 0 <= i < |s| ==> ReplaceAll(s, [c], [d])[i] == if s[i] == c then d else s[i]
    decreases |s|
  {
    if s != [] {
      ReplaceChar(s[1..], c, d);
      assert StartsWith(s, [c]) <==> s[0] == c by {
        assert s[..1] == [s[0]];
      }
    }
  }

  lemma {:induction false} ReplaceAbsent(s: string, pat: string, rep: string)
    requires pat != [] && !Contains(s, pat)
    ensures ReplaceAll(s, pat, rep) == s
    decreases |s|
  {
    if s != [] {
      ReplaceAbsent(s[1..], pat, rep);
    }
  }

  /** Replacement at a match: the replacement, then the rest scanned on. */
  lemma ReplaceAtMatch(pat: string, t: string, rep: string)
    requires pat != []
    ensures ReplaceAll(pat + t, pat, rep) == rep + ReplaceAll(t, pat, rep)
  {
    assert (pat + t)[..|pat|] == pat;
    assert (pat + t)[|pat|..] == t;
  }

  /** A prefix that cannot start a match is kept as it is. */
  lemma {:induction false} ReplaceAfterPrefix(p: string, s: string, pat: string, rep: string)
    requires pat != [] && pat[0] !in p
    ensures ReplaceAll(p + s, pat, rep) == p + ReplaceAll(s, pat, rep)
    decreases |p|
  {
    if p != [] {
      assert (p + s)[0] == p[0] && (p + s)[1..] == p[1..] + s;
      assert !StartsWith(p + s, pat);
      ReplaceAfterPrefix(p[1..], s, pat, rep);
      assert [p[0]] + p[1..] == p;
    } else {
      assert p + s == s;
    }
  }

  /** A string that contains `q` contains its first character. */
  lemma {:induction false} ContainsHead(s: string, q: string)
    requires q != [] && Contains(s, q)
    ensures q[0] in s
    decreases |s|
  {
    if StartsWith(s, q) {
      assert s[0] == s[..|q|][0];
    } else {
      ContainsHead(s[1..], q);
      var i :| 0 <= i < |s| - 1 && s[1..][i] == q[0];
      assert s[i + 1] == q[0];
    }
  }

  /** A string that contains `q` contains every piece of `q`. */
  lemma {:induction false} ContainsPiece(s: string, q: string, i: nat, j: nat)
    requires i <= j <= |q| && Contains(s, q)
    ensures Contains(s, q[i..j])
    decreases |s|
  {
    if StartsWith(s, q) {
      forall k | i <= k < j
        ensures s[k] == q[k]
      {
        assert s[..|q|][k] == s[k];
      }
      assert s[i..j] == q[i..j];
      ContainsFrom(s, q[i..j], i);
    } else {
      ContainsPiece(s[1..], q, i, j);
    }
  }

  lemma {:induction false} ContainsFrom(s: string, p: string, k: nat)
    requires k + |p| <= |s| && s[k..k + |p|] == p
    ensures Contains(s, p)
    decreases k
  {
    if k > 0 {
      assert s[1..][k - 1..k - 1 + |p|] == p;
      ContainsFrom(s[1..], p, k - 1);
    }
  }

  /** `s.split(sep)` for a one-character separator. */
  function Split(s: string, sep: char): (r: seq<string>)
    ensures |r| >= 1
    ensures forall i :: 0 <= i < |r| ==> sep !in r[i]
    decreases |s|
  {
    if s == [] then [[]]
    else
      var rest := Split(s[1..], sep);
      if s[0] == sep then [[]] + rest
      else [[s[0]] + rest[0]] + rest[1..]
  }

  /** `sep.join(parts)`. */
  function Join(parts: seq<string>, sep: string): string
    decreases |parts|
  {
    if |parts| == 0 then []
    else if |parts| == 1 then parts[0]
    else parts[0] + sep + Join(parts[1..], sep)
  }

  lemma {:induction false} SplitJoin(s: string, sep: char)
    ensures Join(Split(s, sep), [sep]) == s
    decreases |s|
  {
    if s != [] {
      SplitJoin(s[1..], sep);
      var rest := Split(s[1..], sep);
      if s[0] != sep && |rest| > 1 {
        assert Join(Split(s, sep), [sep]) == [s[0]] + rest[0] + [sep] + Join(rest[1..], [sep]);
      }
    }
  }

  lemma {:induction false} SplitNoSep(a: string, sep: char)
    requires sep !in a
    ensures Split(a, sep) == [a]
    decreases |a|
  {
    if a != [] {
      SplitNoSep(a[1..], sep);
      assert [a[0]] + a[1..] == a;
    }
  }

  lemma {:induction false} SplitAtSep(a: string, sep: char, b: string)
    requires sep !in a
    ensures Split(a + [sep] + b, sep) == [a] + Split(b, sep)
    decreases |a|
  {
    if a == [] {
      assert a + [sep] + b == [sep] + b;
      assert ([sep] + b)[1..] == b;
    } else {
      assert (a + [sep] + b)[1..] == a[1..] + [sep] + b;
      SplitAtSep(a[1..], sep, b);
      assert [a[0]] + a[1..] == a;
    }
  }

  /** Splitting a joined list gives the list back when no part holds the separator. */
  lemma {:induction false} JoinSplit(parts: seq<string>, sep: char)
    requires |parts| >= 1
    requires forall i :: 0 <= i < |parts| ==> sep !in parts[i]
    ensures Split(Join(parts, [sep]), sep) == parts
    decreases |parts|
  {
    if |parts| == 1 {
      SplitNoSep(parts[0], sep);
    } else {
      JoinSplit(parts[1..], sep);
      SplitAtSep(parts[0], sep, Join(parts[1..], [sep]));
      assert [parts[0]] + parts[1..] == parts;
    }
  }

  /** Index of the first line boundary of `s`, or `|s|`. */
  function FirstBreak(s: string): (k: nat)
    ensures k <= |s|
    ensures forall i :: 0 <= i < k ==> !IsLineBreak(s[i])
    ensures k < |s| ==> IsLineBreak(s[k])
    decreases |s|
  {
    if s == [] || IsLineBreak(s[0]) then 0 else 1 + FirstBreak(s[1..])
  }

  /** `str.splitlines()`: the lines without their terminators; no empty line after a final terminator. */
  function SplitLines(s: string): (r: seq<string>)
    ensures forall i, j :: 0 <= i < |r| && 0 <= j < |r[i]| ==> !IsLineBreak(r[i][j])
    ensures s == [] <==> r == []
    decreases |s|
  {
    if s == [] then []
    else
      var k := FirstBreak(s);
      if k == |s| then [s]
      else
        var w := if s[k] == '\r' && k + 1 < |s| && s[k + 1] == '\n' then 2 else 1;
        [s[..k]] + SplitLines(s[k + w..])
  }

  /** No character of `s` breaks a line. */
  predicate BreakFree(s: string) {
    forall i :: 0 <= i < |s| ==> !IsLineBreak(s[i])
  }

  /** A text with no line break is one line. */
  lemma SplitLinesNoBreak(s: string)
    requires s != [] && BreakFree(s)
    ensures SplitLines(s) == [s]
  {
    BreakFreeFirstBreak(s);
  }

  lemma {:induction false} BreakFreeFirstBreak(s: string)
    requires BreakFree(s)
    ensures FirstBreak(s) == |s|
    decreases |s|
  {
    if s != [] {
      BreakFreeFirstBreak(s[1..]);
    }
  }

  lemma FirstBreakAfter(a: string, t: string)
    requires BreakFree(a)
    requires t != [] && IsLineBreak(t[0])
    ensures FirstBreak(a + t) == |a|
  {
    assert (a + t)[|a|] == t[0];
    assert forall i :: 0 <= i < |a| ==> (a + t)[i] == a[i];
  }

  /**
   * A break-free line followed by one terminator and the rest: the line, then
   * the lines of the rest. The terminator is one break character, or `\r\n`,
   * which counts once; after a final terminator no empty line follows.
   */
  lemma SplitLinesCons(a: string, term: string, t: string)
    requires BreakFree(a)
    requires term == "\r\n" || (|term| == 1 && IsLineBreak(term[0]) && (term[0] == '\r' ==> t == [] || t[0] != '\n'))
    ensures SplitLines(a + term + t) == [a] + SplitLines(t)
  {
    var s := a + term + t;
    assert s == a + (term + t);
    assert (term + t)[0] == term[0];
    FirstBreakAfter(a, term + t);
    assert s[..|a|] == a;
    assert s[|a|] == term[0];
    if term == "\r\n" {
      assert s[|a| + 1] == '\n';
      assert s[|a| + 2..] == t;
    } else {
      assert t != [] ==> s[|a| + 1] == t[0];
      assert s[|a| + 1..] == t;
    }
  }

  /** Break-free lines joined with line feeds split back into those lines, unless the last one is empty. */
  lemma {:induction false} SplitLinesOfJoin(lines: seq<string>)
    requires |lines| >= 1 && lines[|lines| - 1] != []
    requires forall k :: 0 <= k < |lines| ==> BreakFree(lines[k])
    ensures SplitLines(Join(lines, "\n")) == lines
    decreases |lines|
  {
    if |lines| == 1 {
      SplitLinesNoBreak(lines[0]);
    } else {
      var head, tail := lines[0], lines[1..];
      assert forall k :: 0 <= k < |tail| ==> tail[k] == lines[k + 1];
      SplitLinesOfJoin(tail);
      var j := Join(tail, "\n");
      assert Join(lines, "\n") == head + "\n" + j;
      SplitLinesCons(head, "\n", j);
      assert lines == [head] + tail;
    }
  }

  function DigitChar(d: nat): (c: char)
    requires d < 10
    ensures IsDigit(c) && (c as int) - ('0' as int) == d
  {
    ((('0' as int) + d) as char)
  }

  /** `str(n)` for a natural number. */
  function NatToString(n: nat): (r: string)
    ensures r != [] && forall i :: 0 <= i < |r| ==> IsDigit(r[i])
  {
    if n < 10 then [DigitChar(n)] else NatToString(n / 10) + [DigitChar(n % 10)]
  }

  /** The value of a string of decimal digits. */
  function DigitsValue(s: string): nat
    requires forall i :: 0 <= i < |s| ==> IsDigit(s[i])
    decreases |s|
  {
    if s == [] then 0
    else
      assert IsDigit(s[|s| - 1]);
      10 * DigitsValue(s[..|s| - 1]) + ((s[|s| - 1] as int) - ('0' as int))
  }

  /** Reading back the decimal rendering of `n` gives `n`. */
  lemma {:induction false} DigitsRoundTrip(n: nat)
    ensures DigitsValue(NatToString(n)) == n
  {
    if n >= 10 {
      DigitsRoundTrip(n / 10);
      var s := NatToString(n);
      assert s[..|s| - 1] == NatToString(n / 10);
    }
  }

  lemma NatToStringInjective(a: nat, b: nat)
    requires NatToString(a) == NatToString(b)
    ensures a == b
  {
    DigitsRoundTrip(a);
    DigitsRoundTrip(b);
  }

  /** `str.lower()` restricted to ASCII letters. */
  function Lower(s: string): (r: string)
    ensures |r| == |s|
    ensures forall i :: 0 <= i < |s| ==> !('A' <= r[i] <= 'Z')
    ensures forall i :: 0 <= i < |s| && !IsAsciiLetter(s[i]) ==> r[i] == s[i]
    ensures forall i :: 0 <= i < |s| ==> r[i] == (if 'A' <= s[i] <= 'Z' then (s[i] as int + 32) as char else s[i])
  {
    seq(|s|, i requires 0 <= i < |s| => if 'A' <= s[i] <= 'Z' then ((s[i] as int) + 32) as char else s[i])
  }
}
