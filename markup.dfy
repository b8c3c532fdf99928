/**
 * The two regular expressions the program applies to Markdown lines, written
 * out as the `re` engine runs them: `re.search(r'\((.*?)\)', line)` for the
 * path of an image line, and `re.sub(r'\*\*(.+?)\*\*', open + r'\1' + close, s)`
 * for bold text. In both, `.` matches anything but a line feed.
 */
module Markup {
  import opened Wrappers
  import opened Strings

  /** After an opening `(`: everything up to the first `)`, unless a line feed comes first. */
  function CloseParen(t: string): (r: Option<string>)
    ensures r.Some? ==> |r.value| < |t| && t[..|r.value|] == r.value && t[|r.value|] == ')'
    ensures r.Some? ==> ')' !in r.value && '\n' !in r.value
    ensures r.None? ==> forall j :: 0 <= j < |t| && t[j] == ')' ==> '\n' in t[..j]
    decreases |t|
  {
    if t == [] then None
    else if t[0] == ')' then Some([])
    else if t[0] == '\n' then None
    else
      match CloseParen(t[1..])
      case Some(v) => Some([t[0]] + v)
      case None =>
        assert forall j :: 1 <= j < |t| ==> t[1..][..j - 1] == t[1..j];
        None
  }

  /**
   * `re.search(r'\((.*?)\)', s).group(1)`: the search tries each `(` from the
   * left and takes the text up to the first `)` after it, provided no line feed
   * intervenes.
   */
  function ParenGroup(s: string): (r: Option<string>)
    ensures r.Some? ==> ')' !in r.value && '\n' !in r.value && Contains(s, "(" + r.value + ")")
    decreases |s|
  {
    if s == [] then None
    else
      var rest := ParenGroup(s[1..]);
      if s[0] == '(' && CloseParen(s[1..]).Some? then
        var v := CloseParen(s[1..]).value;
        assert s[..|v| + 2] == "(" + v + ")";
        ContainsFrom(s, "(" + v + ")", 0);
        Some(v)
      else
        rest
  }

  /** No match means every `(` ... `)` pair has a line feed between them. */
  lemma {:induction false} ParenGroupNone(s: string)
    requires ParenGroup(s).None?
    ensures forall i, j :: 0 <= i < j < |s| && s[i] == '(' && s[j] == ')' ==> '\n' in s[i + 1..j]
    decreases |s|
  {
    if s != [] {
      ParenGroupNone(s[1..]);
      ParenGroupTail(s);
    }
  }

  /** A pair in `s` either starts at `s[0]`, where `CloseParen` failed, or lies in `s[1..]`. */
  lemma ParenGroupTail(s: string)
    requires s != []
    requires forall i, j :: 0 <= i < j < |s| - 1 && s[1..][i] == '(' && s[1..][j] == ')' ==> '\n' in s[1..][i + 1..j]
    requires s[0] == '(' ==> forall j :: 0 <= j < |s| - 1 && s[1..][j] == ')' ==> '\n' in s[1..][..j]
    ensures forall i, j :: 0 <= i < j < |s| && s[i] == '(' && s[j] == ')' ==> '\n' in s[i + 1..j]
  {
    forall i, j | 0 <= i < j < |s| && s[i] == '(' && s[j] == ')'
      ensures '\n' in s[i + 1..j]
    {
      if i == 0 {
        assert s[1..][j - 1] == ')';
        assert s[1..][..j - 1] == s[1..j];
      } else {
        assert s[1..][i - 1] == '(' && s[1..][j - 1] == ')';
        assert s[1..][i..j - 1] == s[i + 1..j];
      }
    }
  }

  lemma {:induction false} CloseParenOf(x: string, rest: string)
    requires ')' !in x && '\n' !in x
    ensures CloseParen(x + ")" + rest) == Some(x)
    decreases |x|
  {
    var t := x + ")" + rest;
    if x != [] {
      assert t[0] == x[0] && t[1..] == x[1..] + ")" + rest;
      CloseParenOf(x[1..], rest);
      assert [x[0]] + x[1..] == x;
    }
  }

  /** The path of a generated embed line `![](x)` followed by anything is `x`. */
  lemma ParenGroupOfEmbed(x: string, rest: string)
    requires ')' !in x && '\n' !in x
    ensures ParenGroup("![](" + x + ")" + rest) == Some(x)
  {
    var s := "![](" + x + ")" + rest;
    assert s[3..] == "(" + x + ")" + rest;
    assert s[4..] == x + ")" + rest;
    CloseParenOf(x, rest);
    assert s[3..][1..] == s[4..];
    assert ParenGroup(s[3..]) == Some(x);
    assert s[2..][1..] == s[3..];
    assert ParenGroup(s[2..]) == Some(x);
    assert s[1..][1..] == s[2..];
    assert ParenGroup(s[1..]) == Some(x);
  }

  /**
   * After an opening `**`: the length of the shortest non-empty text, free of
   * line feeds, that is followed by `**`; the search has already passed the
   * lengths below `k`.
   */
  function BoldEnd(t: string, k: nat): (r: Option<nat>)
    requires 1 <= k
    ensures r.Some? ==> k <= r.value && r.value + 2 <= |t| && t[r.value..r.value + 2] == "**"
    decreases |t| - k
  {
    if k + 2 > |t| then None
    else if t[k - 1] == '\n' then None
    else if t[k..k + 2] == "**" then Some(k)
    else BoldEnd(t, k + 1)
  }

  /** `re.sub(r'\*\*(.+?)\*\*', open + r'\1' + close, s)`: leftmost matches, scanning on after each. */
  function BoldSub(s: string, open: string, close: string): string
    decreases |s|
  {
    if |s| < 2 then s
    else if s[..2] == "**" && BoldEnd(s[2..], 1).Some? then
      var k := BoldEnd(s[2..], 1).value;
      open + s[2..2 + k] + close + BoldSub(s[4 + k..], open, close)
    else [s[0]] + BoldSub(s[1..], open, close)
  }

  /** Text without `**` is left as it is. */
  lemma {:induction false} BoldSubPlain(s: string, open: string, close: string)
    requires !Contains(s, "**")
    ensures BoldSub(s, open, close) == s
    decreases |s|
  {
    if |s| >= 2 {
      assert !StartsWith(s, "**");
      BoldSubPlain(s[1..], open, close);
      assert [s[0]] + s[1..] == s;
    }
  }

  lemma {:induction false} BoldEndOf(x: string, rest: string, k: nat)
    requires 1 <= k <= |x| && '*' !in x && '\n' !in x
    ensures BoldEnd(x + "**" + rest, k) == Some(|x|)
    decreases |x| - k
  {
    var t := x + "**" + rest;
    assert t[k - 1] == x[k - 1];
    if k < |x| {
      assert t[k..k + 2][0] == t[k] == x[k];
      BoldEndOf(x, rest, k + 1);
    } else {
      assert t[k..k + 2] == "**";
    }
  }

  /** `**x**` for a non-empty, single-line `x` without asterisks becomes `open + x + close`. */
  lemma BoldSubWrap(x: string, rest: string, open: string, close: string)
    requires x != [] && '*' !in x && '\n' !in x
    ensures BoldSub("**" + x + "**" + rest, open, close) == open + x + close + BoldSub(rest, open, close)
  {
    var s := "**" + x + "**" + rest;
    assert s[2..] == x + "**" + rest;
    BoldEndOf(x, rest, 1);
    assert s[2..2 + |x|] == x;
    assert s[4 + |x|..] == rest;
  }
}
