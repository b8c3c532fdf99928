/**
  * app.py's text normaliser: curly quotes to corner brackets, a space at every
  * CJK/Latin boundary, display-line splitting, and the reading-time estimate.
  */
module TextNormalizer {
  import opened Strings

  predicate NoCurlyQuotes(s: string) {
    '“' !in s && '”' !in s
  }

  /** No ideograph is directly followed by an ASCII letter or digit. */
  predicate NoCjkBeforeAlnum(s: string) {
    forall i :: 0 <= i < |s| - 1 ==> !(IsCjk(s[i]) && IsAsciiAlnum(s[i + 1]))
  }

  /** No ASCII letter or digit is directly followed by an ideograph. */
  predicate NoAlnumBeforeCjk(s: string) {
    forall i :: 0 <= i < |s| - 1 ==> !(IsAsciiAlnum(s[i]) && IsCjk(s[i + 1]))
  }

  function QuoteChar(c: char): char {
    if c == '“' then '「' else if c == '”' then '」' else c
  }

  /** `.replace('“', '「').replace('”', '」')`. */
  function MapQuotes(s: string): (r: string)
    ensures |r| == |s| && NoCurlyQuotes(r)
    ensures forall i :: 0 <= i < |s| && s[i] != '“' && s[i] != '”' ==> r[i] == s[i]
    ensures forall i :: 0 <= i < |s| && s[i] == '“' ==> r[i] == '「'
    ensures forall i :: 0 <= i < |s| && s[i] == '”' ==> r[i] == '」'
  {
    seq(|s|, i requires 0 <= i < |s| => QuoteChar(s[i]))
  }

  lemma NoCjkBeforeAlnumConcat(a: string, b: string)
    ensures NoCjkBeforeAlnum(a) && NoCjkBeforeAlnum(b) &&
            (a != [] && b != [] ==> !(IsCjk(a[|a| - 1]) && IsAsciiAlnum(b[0])))
            ==> NoCjkBeforeAlnum(a + b)
  {
    var ab := a + b;
    if NoCjkBeforeAlnum(a) && NoCjkBeforeAlnum(b) &&
       (a != [] && b != [] ==> !(IsCjk(a[|a| - 1]) && IsAsciiAlnum(b[0])))
    {
      forall i | 0 <= i < |ab| - 1
        ensures !(IsCjk(ab[i]) && IsAsciiAlnum(ab[i + 1]))
      {
        if i < |a| - 1 {
          assert ab[i] == a[i] && ab[i + 1] == a[i + 1];
        } else if i == |a| - 1 {
          assert ab[i] == a[|a| - 1] && ab[i + 1] == b[0];
        } else {
          assert ab[i] == b[i - |a|] && ab[i + 1] == b[i - |a| + 1];
        }
      }
    }
  }

  lemma NoAlnumBeforeCjkConcat(a: string, b: string)
    ensures NoAlnumBeforeCjk(a) && NoAlnumBeforeCjk(b) &&
            (a != [] && b != [] ==> !(IsAsciiAlnum(a[|a| - 1]) && IsCjk(b[0])))
            ==> NoAlnumBeforeCjk(a + b)
  {
    var ab := a + b;
    if NoAlnumBeforeCjk(a) && NoAlnumBeforeCjk(b) &&
       (a != [] && b != [] ==> !(IsAsciiAlnum(a[|a| - 1]) && IsCjk(b[0])))
    {
      forall i | 0 <= i < |ab| - 1
        ensures !(IsAsciiAlnum(ab[i]) && IsCjk(ab[i + 1]))
      {
        if i < |a| - 1 {
          assert ab[i] == a[i] && ab[i + 1] == a[i + 1];
        } else if i == |a| - 1 {
          assert ab[i] == a[|a| - 1] && ab[i + 1] == b[0];
        } else {
          assert ab[i] == b[i - |a|] && ab[i + 1] == b[i - |a| + 1];
        }
      }
    }
  }

  lemma PairsOfTail(s: string, k: nat)
    requires k <= |s|
    ensures NoCjkBeforeAlnum(s) ==> NoCjkBeforeAlnum(s[k..])
    ensures NoAlnumBeforeCjk(s) ==> NoAlnumBeforeCjk(s[k..])
  {
    var t := s[k..];
    assert forall i :: 0 <= i < |t| ==> t[i] == s[i + k];
  }

  /** `re.sub(r'([一-龥])([A-Za-z0-9])', r'\1 \2', s)`: the regex scans left to right and consumes both characters of a match. */
  function SpaceAfterCjk(s: string): (r: string)
    ensures s != [] ==> r != [] && r[0] == s[0]
    decreases |s|
  {
    if s == [] then []
    else if |s| >= 2 && IsCjk(s[0]) && IsAsciiAlnum(s[1]) then [s[0], ' ', s[1]] + SpaceAfterCjk(s[2..])
    else [s[0]] + SpaceAfterCjk(s[1..])
  }

  /** After the substitution no ideograph touches a following letter or digit. */
  lemma {:induction false} SpaceAfterCjkSeparates(s: string)
    ensures NoCjkBeforeAlnum(SpaceAfterCjk(s))
    decreases |s|
  {
    if s != [] {
      if |s| >= 2 && IsCjk(s[0]) && IsAsciiAlnum(s[1]) {
        SpaceAfterCjkSeparates(s[2..]);
        NoCjkBeforeAlnumConcat([s[0], ' ', s[1]], SpaceAfterCjk(s[2..]));
      } else {
        SpaceAfterCjkSeparates(s[1..]);
        NoCjkBeforeAlnumConcat([s[0]], SpaceAfterCjk(s[1..]));
      }
    }
  }

  /** Text with no ideograph before a letter or digit is left as it is. */
  lemma {:induction false} SpaceAfterCjkFixed(s: string)
    requires NoCjkBeforeAlnum(s)
    ensures SpaceAfterCjk(s) == s
    decreases |s|
  {
    if s != [] {
      PairsOfTail(s, 1);
      SpaceAfterCjkFixed(s[1..]);
      assert [s[0]] + s[1..] == s;
    }
  }

  /** The substitution only inserts spaces, so it brings in no curly quote. */
  lemma {:induction false} SpaceAfterCjkQuotes(s: string)
    requires NoCurlyQuotes(s)
    ensures NoCurlyQuotes(SpaceAfterCjk(s))
    decreases |s|
  {
    if s != [] {
      if |s| >= 2 && IsCjk(s[0]) && IsAsciiAlnum(s[1]) {
        assert s[1] in s;
        SpaceAfterCjkQuotes(s[2..]);
      } else {
        SpaceAfterCjkQuotes(s[1..]);
      }
    }
  }

  /** `re.sub(r'([A-Za-z0-9])([一-龥])', r'\1 \2', s)`. */
  function SpaceBeforeCjk(s: string): (r: string)
    ensures s != [] ==> r != [] && r[0] == s[0]
    decreases |s|
  {
    if s == [] then []
    else if |s| >= 2 && IsAsciiAlnum(s[0]) && IsCjk(s[1]) then [s[0], ' ', s[1]] + SpaceBeforeCjk(s[2..])
    else [s[0]] + SpaceBeforeCjk(s[1..])
  }

  /** After the substitution no letter or digit touches a following ideograph. */
  lemma {:induction false} SpaceBeforeCjkSeparates(s: string)
    ensures NoAlnumBeforeCjk(SpaceBeforeCjk(s))
    decreases |s|
  {
    if s != [] {
      if |s| >= 2 && IsAsciiAlnum(s[0]) && IsCjk(s[1]) {
        SpaceBeforeCjkSeparates(s[2..]);
        NoAlnumBeforeCjkConcat([s[0], ' ', s[1]], SpaceBeforeCjk(s[2..]));
      } else {
        SpaceBeforeCjkSeparates(s[1..]);
        NoAlnumBeforeCjkConcat([s[0]], SpaceBeforeCjk(s[1..]));
      }
    }
  }

  /** The second substitution does not undo the first: no ideograph comes to touch a following letter or digit. */
  lemma {:induction false} SpaceBeforeCjkKeeps(s: string)
    requires NoCjkBeforeAlnum(s)
    ensures NoCjkBeforeAlnum(SpaceBeforeCjk(s))
    decreases |s|
  {
    if s != [] {
      if |s| >= 2 && IsAsciiAlnum(s[0]) && IsCjk(s[1]) {
        PairsOfTail(s, 2);
        SpaceBeforeCjkKeeps(s[2..]);
        assert |s| > 2 ==> s[2..][0] == s[2];
        NoCjkBeforeAlnumConcat([s[0], ' ', s[1]], SpaceBeforeCjk(s[2..]));
      } else {
        PairsOfTail(s, 1);
        SpaceBeforeCjkKeeps(s[1..]);
        NoCjkBeforeAlnumConcat([s[0]], SpaceBeforeCjk(s[1..]));
      }
    }
  }

  /** Text with no letter or digit before an ideograph is left as it is. */
  lemma {:induction false} SpaceBeforeCjkFixed(s: string)
    requires NoAlnumBeforeCjk(s)
    ensures SpaceBeforeCjk(s) == s
    decreases |s|
  {
    if s != [] {
      PairsOfTail(s, 1);
      SpaceBeforeCjkFixed(s[1..]);
      assert [s[0]] + s[1..] == s;
    }
  }

  /** The substitution only inserts spaces, so it brings in no curly quote. */
  lemma {:induction false} SpaceBeforeCjkQuotes(s: string)
    requires NoCurlyQuotes(s)
    ensures NoCurlyQuotes(SpaceBeforeCjk(s))
    decreases |s|
  {
    if s != [] {
      if |s| >= 2 && IsAsciiAlnum(s[0]) && IsCjk(s[1]) {
        assert s[1] in s;
        SpaceBeforeCjkQuotes(s[2..]);
      } else {
        SpaceBeforeCjkQuotes(s[1..]);
      }
    }
  }

  /** The text with every space deleted: what the two substitutions must keep. */
  function NoSpaces(s: string): (r: string)
    ensures forall c :: c in r ==> c in s && c != ' '
    decreases |s|
  {
    if s == [] then [] else (if s[0] == ' ' then [] else [s[0]]) + NoSpaces(s[1..])
  }

  lemma {:induction false} NoSpacesAppend(a: string, b: string)
    ensures NoSpaces(a + b) == NoSpaces(a) + NoSpaces(b)
    decreases |a|
  {
    if a == [] {
      assert a + b == b;
    } else {
      assert (a + b)[1..] == a[1..] + b;
      NoSpacesAppend(a[1..], b);
    }
  }

  /** Two characters of which neither is a space, with a space between them, lose only that space. */
  lemma NoSpacesOfPair(x: char, y: char)
    requires x != ' ' && y != ' '
    ensures NoSpaces([x, ' ', y]) == [x, y] == NoSpaces([x, y])
  {
    assert [x, ' ', y][1..] == [' ', y];
    assert [' ', y][1..] == [y];
    assert [x, y][1..] == [y];
    assert [y][1..] == [];
    assert NoSpaces([y]) == [y];
    assert NoSpaces([' ', y]) == [y];
  }

  /** Two leading characters other than spaces, with a space put between them, followed by text equal up to spaces. */
  lemma NoSpacesPairStep(s: string, out: string)
    requires |s| >= 2 && s[0] != ' ' && s[1] != ' '
    requires NoSpaces(out) == NoSpaces(s[2..])
    ensures NoSpaces([s[0], ' ', s[1]] + out) == NoSpaces(s)
  {
    NoSpacesAppend([s[0], ' ', s[1]], out);
    NoSpacesOfPair(s[0], s[1]);
    assert s == [s[0], s[1]] + s[2..];
    NoSpacesAppend([s[0], s[1]], s[2..]);
  }

  /** The leading character kept, followed by text equal up to spaces. */
  lemma NoSpacesStep(s: string, out: string)
    requires s != [] && NoSpaces(out) == NoSpaces(s[1..])
    ensures NoSpaces([s[0]] + out) == NoSpaces(s)
  {
    NoSpacesAppend([s[0]], out);
    assert s == [s[0]] + s[1..];
    NoSpacesAppend([s[0]], s[1..]);
  }

  /** The first substitution inserts spaces and nothing else. */
  lemma {:induction false} SpaceAfterCjkOnlySpaces(s: string)
    ensures NoSpaces(SpaceAfterCjk(s)) == NoSpaces(s)
    decreases |s|
  {
    if s != [] {
      if |s| >= 2 && IsCjk(s[0]) && IsAsciiAlnum(s[1]) {
        SpaceAfterCjkOnlySpaces(s[2..]);
        NoSpacesPairStep(s, SpaceAfterCjk(s[2..]));
      } else {
        SpaceAfterCjkOnlySpaces(s[1..]);
        NoSpacesStep(s, SpaceAfterCjk(s[1..]));
      }
    }
  }

  /** The second substitution inserts spaces and nothing else. */
  lemma {:induction false} SpaceBeforeCjkOnlySpaces(s: string)
    ensures NoSpaces(SpaceBeforeCjk(s)) == NoSpaces(s)
    decreases |s|
  {
    if s != [] {
      if |s| >= 2 && IsAsciiAlnum(s[0]) && IsCjk(s[1]) {
        SpaceBeforeCjkOnlySpaces(s[2..]);
        NoSpacesPairStep(s, SpaceBeforeCjk(s[2..]));
      } else {
        SpaceBeforeCjkOnlySpaces(s[1..]);
        NoSpacesStep(s, SpaceBeforeCjk(s[1..]));
      }
    }
  }

  /** `auto_format_text`. */
  function AutoFormat(s: string): (r: string)
    ensures NoCurlyQuotes(r) && NoCjkBeforeAlnum(r) && NoAlnumBeforeCjk(r)
  {
    var q := MapQuotes(s);
    var a := SpaceAfterCjk(q);
    SpaceAfterCjkSeparates(q);
    SpaceAfterCjkQuotes(q);
    SpaceBeforeCjkSeparates(a);
    SpaceBeforeCjkKeeps(a);
    SpaceBeforeCjkQuotes(a);
    SpaceBeforeCjk(a)
  }

  /** Normalising twice is normalising once. */
  lemma AutoFormatIdempotent(s: string)
    ensures AutoFormat(AutoFormat(s)) == AutoFormat(s)
  {
    AutoFormatFixed(AutoFormat(s));
  }

  /**
   * Apart from the quote mapping, normalising only inserts spaces: deleting
   * the spaces of the result gives the quote-mapped text without its spaces.
   */
  lemma AutoFormatOnlySpaces(s: string)
    ensures NoSpaces(AutoFormat(s)) == NoSpaces(MapQuotes(s))
  {
    var q := MapQuotes(s);
    SpaceAfterCjkOnlySpaces(q);
    SpaceBeforeCjkOnlySpaces(SpaceAfterCjk(q));
  }

  /** Text already free of curly quotes and CJK/Latin contact is left as it is. */
  lemma AutoFormatFixed(s: string)
    requires NoCurlyQuotes(s) && NoCjkBeforeAlnum(s) && NoAlnumBeforeCjk(s)
    ensures AutoFormat(s) == s
  {
    assert MapQuotes(s) == s;
    SpaceAfterCjkFixed(s);
    SpaceBeforeCjkFixed(s);
  }

  /** Every part is non-empty and stripped. */
  predicate AllClean(parts: seq<string>) {
    forall i :: 0 <= i < |parts| ==> parts[i] != [] && Stripped(parts[i])
  }

  /** The parts mapped by `f`, keeping only the non-empty results, in order. */
  function KeepNonEmpty(parts: seq<string>, f: string -> string): seq<string>
    decreases |parts|
  {
    if parts == [] then [] else (if f(parts[0]) == [] then [] else [f(parts[0])]) + KeepNonEmpty(parts[1..], f)
  }

  /**
   * When `f` always gives stripped text and leaves stripped non-empty text
   * alone, what is kept is clean, and clean parts are kept as they are.
   */
  lemma {:induction false} KeepNonEmptyShape(parts: seq<string>, f: string -> string)
    requires forall p :: Stripped(f(p))
    requires forall p :: p != [] && Stripped(p) ==> f(p) == p
    ensures |KeepNonEmpty(parts, f)| <= |parts|
    ensures AllClean(KeepNonEmpty(parts, f))
    ensures AllClean(parts) ==> KeepNonEmpty(parts, f) == parts
    decreases |parts|
  {
    if parts != [] {
      var tail := parts[1..];
      KeepNonEmptyShape(tail, f);
      var t := f(parts[0]);
      var head := if t == [] then [] else [t];
      assert KeepNonEmpty(parts, f) == head + KeepNonEmpty(tail, f);
      CleanConcat(head, KeepNonEmpty(tail, f));
      if AllClean(parts) {
        assert forall i :: 0 <= i < |tail| ==> tail[i] == parts[i + 1];
        assert parts == [parts[0]] + tail;
      }
    }
  }

  lemma CleanConcat(a: seq<string>, b: seq<string>)
    requires AllClean(a) && AllClean(b)
    ensures AllClean(a + b)
  {
    assert forall i :: 0 <= i < |a + b| ==> (a + b)[i] == if i < |a| then a[i] else b[i - |a|];
  }

  lemma {:induction false} KeepNonEmptyAppend(a: seq<string>, b: seq<string>, f: string -> string)
    ensures KeepNonEmpty(a + b, f) == KeepNonEmpty(a, f) + KeepNonEmpty(b, f)
    decreases |a|
  {
    if a == [] {
      assert a + b == b;
    } else {
      assert (a + b)[0] == a[0];
      assert (a + b)[1..] == a[1..] + b;
      KeepNonEmptyAppend(a[1..], b, f);
    }
  }

  /** `str.strip` gives stripped text and leaves stripped text alone. */
  lemma StripFacts()
    ensures forall p :: Stripped(Strip(p))
    ensures forall p :: p != [] && Stripped(p) ==> Strip(p) == p
  {
    forall p | p != [] && Stripped(p)
      ensures Strip(p) == p
    {
      StripStripped(p);
    }
  }

  /** The trimmed, non-empty parts, in order. */
  function NonEmptyStripped(parts: seq<string>): (r: seq<string>)
    ensures |r| <= |parts|
    ensures forall i :: 0 <= i < |r| ==> r[i] != [] && Stripped(r[i])
    ensures (forall i :: 0 <= i < |parts| ==> parts[i] != [] && Stripped(parts[i])) ==> r == parts
  {
    StripFacts();
    KeepNonEmptyShape(parts, Strip);
    KeepNonEmpty(parts, Strip)
  }

  /** The comprehension works piecewise over the parts. */
  lemma NonEmptyStrippedAppend(a: seq<string>, b: seq<string>)
    ensures NonEmptyStripped(a + b) == NonEmptyStripped(a) + NonEmptyStripped(b)
  {
    KeepNonEmptyAppend(a, b, Strip);
  }

  /** One part: dropped when blank, otherwise kept stripped. */
  lemma NonEmptyStrippedOne(p: string)
    ensures NonEmptyStripped([p]) == if IsBlank(p) then [] else [Strip(p)]
  {
    assert [p][1..] == [];
    assert KeepNonEmpty([p], Strip) == (if Strip(p) == [] then [] else [Strip(p)]) + KeepNonEmpty([], Strip);
  }

  /** `f` applied to every part, none dropped. */
  function MapParts(parts: seq<string>, f: string -> string): (r: seq<string>)
    ensures |r| == |parts|
    decreases |parts|
  {
    if parts == [] then [] else [f(parts[0])] + MapParts(parts[1..], f)
  }

  lemma {:induction false} MapPartsAt(parts: seq<string>, f: string -> string, i: nat)
    requires i < |parts|
    ensures MapParts(parts, f)[i] == f(parts[i])
    decreases i
  {
    if i > 0 {
      MapPartsAt(parts[1..], f, i - 1);
    }
  }

  /** When `f` leaves no part empty, every part is kept, mapped, in order. */
  lemma {:induction false} KeepNonEmptyAll(parts: seq<string>, f: string -> string)
    requires forall i :: 0 <= i < |parts| ==> f(parts[i]) != []
    ensures KeepNonEmpty(parts, f) == MapParts(parts, f)
    decreases |parts|
  {
    if parts != [] {
      var tail := parts[1..];
      assert forall i :: 0 <= i < |tail| ==> tail[i] == parts[i + 1];
      KeepNonEmptyAll(tail, f);
    }
  }

  /** Parts with something besides white space are all kept, each stripped, in order. */
  lemma NonEmptyStrippedAll(parts: seq<string>)
    requires forall i :: 0 <= i < |parts| ==> Strip(parts[i]) != []
    ensures NonEmptyStripped(parts) == MapParts(parts, Strip)
  {
    KeepNonEmptyAll(parts, Strip);
  }

  /** A blank part among others is dropped. */
  lemma NonEmptyStrippedSkip(a: seq<string>, blank: string, b: seq<string>)
    requires IsBlank(blank)
    ensures NonEmptyStripped(a + [blank] + b) == NonEmptyStripped(a + b)
  {
    var ab := a + [blank];
    NonEmptyStrippedAppend(ab, b);
    NonEmptyStrippedAppend(a, [blank]);
    NonEmptyStrippedOne(blank);
    var x := NonEmptyStripped(a);
    assert NonEmptyStripped(ab) == x + [] == x;
    NonEmptyStrippedAppend(a, b);
  }

  /** `[l.strip() for l in text.split("|") if l.strip()]`. */
  function PipeSegments(text: string): (r: seq<string>)
    ensures forall i :: 0 <= i < |r| ==> r[i] != [] && Stripped(r[i]) && '|' !in r[i]
  {
    var parts := Split(text, '|');
    var r := NonEmptyStripped(parts);
    assert forall i :: 0 <= i < |r| ==> '|' !in r[i] by {
      SegmentsFromParts(parts);
    }
    r
  }

  lemma {:induction false} SegmentsFromParts(parts: seq<string>)
    requires forall i :: 0 <= i < |parts| ==> '|' !in parts[i]
    ensures forall i :: 0 <= i < |NonEmptyStripped(parts)| ==> '|' !in NonEmptyStripped(parts)[i]
    decreases |parts|
  {
    if parts != [] {
      var tail := parts[1..];
      assert forall i :: 0 <= i < |tail| ==> tail[i] == parts[i + 1];
      SegmentsFromParts(tail);
      StripKeepsAbsent(parts[0], '|');
      var t, rest := Strip(parts[0]), NonEmptyStripped(tail);
      var r := NonEmptyStripped(parts);
      if t != [] {
        assert r == [t] + rest;
        forall i | 0 <= i < |r|
          ensures '|' !in r[i]
        {
          if i > 0 {
            assert r[i] == rest[i - 1];
          }
        }
      }
    }
  }

  /** Joining trimmed, non-empty, pipe-free segments with `|` and splitting again gives them back. */
  lemma PipeSegmentsOfJoin(parts: seq<string>)
    requires |parts| >= 1
    requires forall i :: 0 <= i < |parts| ==> parts[i] != [] && Stripped(parts[i]) && '|' !in parts[i]
    ensures PipeSegments(Join(parts, "|")) == parts
  {
    JoinSplit(parts, '|');
  }

  /**
   * Splitting a join at `|` recovers the comprehension over the joined parts:
   * each part stripped, blank parts dropped, the rest in order.
   */
  lemma PipeSegmentsOfParts(parts: seq<string>)
    requires |parts| >= 1
    requires forall i :: 0 <= i < |parts| ==> '|' !in parts[i]
    ensures PipeSegments(Join(parts, "|")) == NonEmptyStripped(parts)
  {
    JoinSplit(parts, '|');
  }

  /** Padded segments come back trimmed: `"a | b"` gives `["a", "b"]`. */
  lemma PipeSegmentsPadded(parts: seq<string>)
    requires |parts| >= 1
    requires forall i :: 0 <= i < |parts| ==> '|' !in parts[i] && Strip(parts[i]) != []
    ensures var r := PipeSegments(Join(parts, "|"));
      |r| == |parts| && forall i :: 0 <= i < |parts| ==> r[i] == Strip(parts[i])
  {
    PipeSegmentsOfParts(parts);
    NonEmptyStrippedAll(parts);
    forall i | 0 <= i < |parts|
      ensures MapParts(parts, Strip)[i] == Strip(parts[i])
    {
      MapPartsAt(parts, Strip, i);
    }
  }

  /** A blank segment between two pipes is dropped: `"a||b"` gives the segments of `"a|b"`. */
  lemma PipeSegmentsBlankDropped(a: seq<string>, blank: string, b: seq<string>)
    requires |a| >= 1 && |b| >= 1 && IsBlank(blank) && '|' !in blank
    requires forall i :: 0 <= i < |a| ==> '|' !in a[i]
    requires forall i :: 0 <= i < |b| ==> '|' !in b[i]
    ensures PipeSegments(Join(a + [blank] + b, "|")) == PipeSegments(Join(a + b, "|"))
  {
    PipeFreeConcat(a + [blank], b);
    PipeFreeConcat(a, [blank]);
    PipeFreeConcat(a, b);
    PipeSegmentsOfParts(a + [blank] + b);
    PipeSegmentsOfParts(a + b);
    NonEmptyStrippedSkip(a, blank, b);
  }

  lemma PipeFreeConcat(a: seq<string>, b: seq<string>)
    requires forall i :: 0 <= i < |a| ==> '|' !in a[i]
    requires forall i :: 0 <= i < |b| ==> '|' !in b[i]
    ensures forall i :: 0 <= i < |a + b| ==> '|' !in (a + b)[i]
  {
  }

  /** The width promise of `textwrap.wrap(text, width)`: no line is longer than `width`. */
  ghost predicate WrapRespectsWidth(wrap: (string, nat) -> seq<string>) {
    forall t, w, i :: 0 <= i < |wrap(t, w)| ==> |wrap(t, w)[i]| <= w
  }

  /**
    * `process_text_lines(text, max_chars)`: with a `|` the trimmed non-empty
    * segments; otherwise the lines of `wrap` (standing for `textwrap.wrap`).
    */
  function ProcessTextLines(text: string, maxChars: nat, wrap: (string, nat) -> seq<string>): (r: seq<string>)
    requires WrapRespectsWidth(wrap)
    ensures '|' in text ==> forall i :: 0 <= i < |r| ==> r[i] != [] && Stripped(r[i]) && '|' !in r[i]
    ensures '|' !in text ==> forall i :: 0 <= i < |r| ==> |r[i]| <= maxChars
    ensures '|' !in text ==> r == wrap(text, maxChars)
  {
    if '|' in text then PipeSegments(text) else wrap(text, maxChars)
  }

  /**
   * A line of pipe-free parts joined with `|` is drawn as those parts,
   * each stripped, blank ones dropped, in order.
   */
  lemma ProcessTextLinesPiped(parts: seq<string>, maxChars: nat, wrap: (string, nat) -> seq<string>)
    requires WrapRespectsWidth(wrap)
    requires |parts| >= 2
    requires forall i :: 0 <= i < |parts| ==> '|' !in parts[i]
    ensures ProcessTextLines(Join(parts, "|"), maxChars, wrap) == NonEmptyStripped(parts)
  {
    PipeInJoin(parts);
    PipeSegmentsOfParts(parts);
  }

  lemma PipeInJoin(parts: seq<string>)
    requires |parts| >= 2
    ensures '|' in Join(parts, "|")
  {
    var j := Join(parts, "|");
    assert j == parts[0] + "|" + Join(parts[1..], "|");
    assert j[|parts[0]|] == '|';
  }

  /** `max(1, math.ceil(n / 400))`: estimated minutes of reading for `n` characters. */
  function ReadTimeMinutes(n: nat): (m: nat)
    ensures m >= 1
    ensures n > 0 ==> 400 * (m - 1) < n <= 400 * m
    ensures n <= 400 ==> m == 1
  {
    if n == 0 then 1 else (n + 399) / 400
  }
}
