/** The POSIX `os.path` operations the program uses, and "first candidate that exists". */
module Paths {
  import opened Wrappers
  import opened Strings

  /** `os.path.join(a, b)`: an absolute `b` wins, otherwise one `/` between the two. */
  function PathJoin(a: string, b: string): string {
    if StartsWith(b, "/") then b
    else if a == [] || a[|a| - 1] == '/' then a + b
    else a + "/" + b
  }

  /** The joined path ends with `b` and, unless `b` is absolute, starts with `a`. */
  lemma PathJoinParts(a: string, b: string)
    ensures EndsWith(PathJoin(a, b), b)
    ensures !StartsWith(b, "/") ==> StartsWith(PathJoin(a, b), a)
  {
    var r := PathJoin(a, b);
    if !StartsWith(b, "/") {
      assert r[..|a|] == a;
    }
  }

  /** A relative name joined under `a` lies under `a` and ends with the name. */
  lemma JoinUnder(a: string, b: string)
    requires b != [] && b[0] != '/'
    ensures StartsWith(PathJoin(a, b), a) && EndsWith(PathJoin(a, b), b)
  {
    assert !StartsWith(b, "/") by {
      assert b[..1][0] == b[0];
    }
    PathJoinParts(a, b);
  }

  /** `os.path.basename(p)`: what follows the last `/`. */
  function Basename(p: string): (r: string)
    ensures '/' !in r
    ensures EndsWith(p, r)
    ensures |r| < |p| ==> p[|p| - |r| - 1] == '/'
    decreases |p|
  {
    if p == [] || p[|p| - 1] == '/' then [] else Basename(p[..|p| - 1]) + [p[|p| - 1]]
  }

  /** The base name of a path whose last component is `b` is `b`. */
  lemma {:induction false} BasenameAfterSlash(pre: string, b: string)
    requires '/' !in b
    requires pre == [] || pre[|pre| - 1] == '/'
    ensures Basename(pre + b) == b
    decreases |b|
  {
    var p := pre + b;
    if b == [] {
      assert p == pre;
    } else {
      var n := |b| - 1;
      assert p[..|p| - 1] == pre + b[..n];
      assert p[|p| - 1] == b[n];
      BasenameAfterSlash(pre, b[..n]);
      assert b[..n] + [b[n]] == b;
    }
  }

  /** A single path component joined under a folder is the base name of the result. */
  lemma BasenameOfJoin(a: string, b: string)
    requires b != [] && '/' !in b
    ensures Basename(PathJoin(a, b)) == b
  {
    assert !StartsWith(b, "/") by {
      assert b[..1][0] == b[0];
    }
    if a == [] || a[|a| - 1] == '/' {
      BasenameAfterSlash(a, b);
    } else {
      assert a + "/" + b == (a + "/") + b;
      BasenameAfterSlash(a + "/", b);
    }
  }

  /** `s.rfind(c)`: the last index of `c`, or -1. */
  function RFind(s: string, c: char): (k: int)
    ensures -1 <= k < |s|
    ensures k >= 0 ==> s[k] == c
    ensures forall i :: k < i < |s| ==> s[i] != c
    decreases |s|
  {
    if s == [] then -1 else if s[|s| - 1] == c then |s| - 1 else RFind(s[..|s| - 1], c)
  }

  /**
   * `os.path.splitext(p)[1]`: from the last dot of the base name, provided
   * that dot is preceded by something other than dots; otherwise empty.
   */
  function Ext(p: string): (e: string)
    ensures EndsWith(p, e)
    ensures e == [] || (e[0] == '.' && '/' !in e)
    ensures forall i :: 1 <= i < |e| ==> e[i] != '.'
  {
    var b := Basename(p);
    var k := RFind(b, '.');
    if k >= 0 && exists i :: 0 <= i < k && b[i] != '.' then b[k..] else []
  }

  /**
   * A file name with something other than dots before its last dot has the
   * text from that dot on as its extension, whatever folder it is in:
   * `input/photo.png` gives `.png`.
   */
  lemma ExtOfName(pre: string, n: string, x: string)
    requires pre == [] || pre[|pre| - 1] == '/'
    requires '/' !in n && exists i :: 0 <= i < |n| && n[i] != '.'
    requires '/' !in x && '.' !in x
    ensures Ext(pre + (n + "." + x)) == "." + x
  {
    var b := n + "." + x;
    NameParts(b, n, x);
    BasenameAfterSlash(pre, b);
    ExtAt(pre + b, b, |n|);
  }

  /** The name `n.x`: no `/`, its last dot at `|n|`, and `.x` after it. */
  lemma NameParts(b: string, n: string, x: string)
    requires b == n + "." + x
    requires '/' !in n && '/' !in x && '.' !in x
    requires exists i :: 0 <= i < |n| && n[i] != '.'
    ensures '/' !in b && RFind(b, '.') == |n| && b[|n|..] == "." + x
    ensures exists i :: 0 <= i < |n| && b[i] != '.'
  {
    assert forall i :: 0 <= i < |b| ==> b[i] == if i < |n| then n[i] else if i == |n| then '.' else x[i - |n| - 1];
    assert b[|n|] == '.';
    var i :| 0 <= i < |n| && n[i] != '.';
    assert b[i] == n[i];
  }

  lemma ExtAt(p: string, b: string, k: nat)
    requires Basename(p) == b && RFind(b, '.') == k
    requires exists i :: 0 <= i < k && b[i] != '.'
    ensures Ext(p) == b[k..]
  {
  }

  lemma SuffixSplit(p: string, e: string)
    requires EndsWith(p, e)
    ensures p[..|p| - |e|] + e == p
  {
    assert p == p[..|p| - |e|] + p[|p| - |e|..];
  }

  /** `os.path.splitext(p)[0]`. */
  function Stem(p: string): (s: string)
    ensures s + Ext(p) == p
  {
    var e := Ext(p);
    SuffixSplit(p, e);
    p[..|p| - |e|]
  }

  /**
   * The first of `candidates` that is among the existing files `present`, as the
   * source's probing loops find it.
   */
  function FirstExisting(candidates: seq<string>, present: set<string>): (r: Option<string>)
    ensures r.Some? ==> r.value in candidates && r.value in present
    ensures r.None? <==> forall i :: 0 <= i < |candidates| ==> candidates[i] !in present
    decreases |candidates|
  {
    if candidates == [] then None
    else if candidates[0] in present then Some(candidates[0])
    else FirstExisting(candidates[1..], present)
  }

  /** The probing loop: try each candidate in order and stop at the first existing one. */
  method FindExisting(candidates: seq<string>, present: set<string>) returns (r: Option<string>)
    ensures r == FirstExisting(candidates, present)
  {
    r := None;
    var i := 0;
    while i < |candidates|
      invariant 0 <= i <= |candidates|
      invariant FirstExisting(candidates, present) == FirstExisting(candidates[i..], present)
      decreases |candidates| - i
    {
      assert candidates[i..][0] == candidates[i] && candidates[i..][1..] == candidates[i + 1..];
      if candidates[i] in present {
        r := Some(candidates[i]);
        return;
      }
      i := i + 1;
    }
  }

  /** The first present of three candidates, written out. */
  lemma FirstOfThree(a: string, b: string, c: string, present: set<string>)
    ensures FirstExisting([a, b, c], present)
      == if a in present then Some(a) else if b in present then Some(b) else if c in present then Some(c) else None
  {
    assert [c][1..] == [];
    assert FirstExisting([c], present) == if c in present then Some(c) else None;
    assert [b, c][1..] == [c];
    assert FirstExisting([b, c], present) == if b in present then Some(b) else FirstExisting([c], present);
    assert [a, b, c][1..] == [b, c];
  }

  /** The candidate found is the first present one: every earlier candidate is missing. */
  lemma {:induction false} FirstExistingAt(candidates: seq<string>, present: set<string>, i: nat)
    requires i < |candidates| && candidates[i] in present
    requires forall j :: 0 <= j < i ==> candidates[j] !in present
    ensures FirstExisting(candidates, present) == Some(candidates[i])
    decreases i
  {
    if i > 0 {
      FirstExistingAt(candidates[1..], present, i - 1);
    }
  }
}
