/**
 * The text logic of the quick editor and console of WriterStudio_GUI.py:
 * the heading, bold and quote buttons, `extract_markdown`,
 * `clean_notion_spacing`, the names of pasted images and the character
 * filter of the console redirect.
 */
module Editor {
  import opened Wrappers
  import opened Strings

  // ---------------------------------------------------------------------
  // format_text
  // ---------------------------------------------------------------------

  /**
   * One line under a line-prefix format: a blank line is kept as it is,
   * any other line becomes `prefix` followed by the line with its leading
   * `marker`s and then its surrounding white space removed.
   */
  function PrefixLine(line: string, prefix: string, marker: char): string {
    if IsBlank(line) then line else prefix + Strip(LStripChar(line, marker))
  }

  function PrefixEach(lines: seq<string>, prefix: string, marker: char): (r: seq<string>)
    ensures |r| == |lines|
    ensures forall i :: 0 <= i < |lines| ==> r[i] == PrefixLine(lines[i], prefix, marker)
  {
    seq(|lines|, i requires 0 <= i < |lines| => PrefixLine(lines[i], prefix, marker))
  }

  /** The `h1`, `h2` and `quote` formats: split on `\n`, format each line, join again. */
  function PrefixLines(text: string, prefix: string, marker: char): string {
    Join(PrefixEach(Split(text, '\n'), prefix, marker), "\n")
  }

  /**
   * `format_text` on the selection: `None` when nothing is selected, when
   * the selection is blank or when the format is not one of the four, and
   * the text is then left alone; otherwise the text that replaces the
   * selection.
   */
  function FormatSelection(selected: Option<string>, formatType: string): Option<string> {
    match selected
    case None => None
    case Some(t) =>
      if IsBlank(t) then None
      else if formatType == "h1" then Some(PrefixLines(t, "# ", '#'))
      else if formatType == "h2" then Some(PrefixLines(t, "## ", '#'))
      else if formatType == "bold" then Some("**" + t + "**")
      else if formatType == "quote" then Some(PrefixLines(t, "> ", '>'))
      else None
  }

  /** The selection is replaced exactly when there is one, it is not blank and the format is known. */
  lemma FormatLeavesText(selected: Option<string>, formatType: string)
    ensures FormatSelection(selected, formatType).None?
      <==> (selected.None? || IsBlank(selected.value)
            || (formatType != "h1" && formatType != "h2" && formatType != "bold" && formatType != "quote"))
  {
  }

  /** Bold wraps the whole selection, line breaks included, in `**`. */
  lemma FormatBold(t: string)
    requires !IsBlank(t)
    ensures var r := FormatSelection(Some(t), "bold");
      r.Some? && StartsWith(r.value, "**") && EndsWith(r.value, "**")
      && r.value[2..|r.value| - 2] == t
  {
    var w := "**" + t + "**";
    assert w[..2] == "**" && w[|w| - 2..] == "**" && w[2..|w| - 2] == t;
  }

  /** A marker prefix: one or more `marker`s and a space. */
  predicate MarkerPrefix(prefix: string, marker: char) {
    |prefix| >= 2 && prefix[|prefix| - 1] == ' '
    && (forall i :: 0 <= i < |prefix| - 1 ==> prefix[i] == marker)
    && !IsSpace(marker)
  }

  /** Removing leading `c`s from a run of `c`s followed by a non-`c` leaves what follows. */
  lemma {:induction false} LStripCharRun(p: string, t: string, c: char)
    requires forall i :: 0 <= i < |p| ==> p[i] == c
    requires t == [] || t[0] != c
    ensures LStripChar(p + t, c) == t
    decreases |p|
  {
    if p == [] {
      assert p + t == t;
    } else {
      assert (p + t)[0] == c;
      assert (p + t)[1..] == p[1..] + t;
      LStripCharRun(p[1..], t, c);
    }
  }

  /** Whatever a formatted line holds comes from the line or the prefix. */
  lemma PrefixLineChars(line: string, prefix: string, marker: char, x: char)
    requires x !in line && x !in prefix
    ensures x !in PrefixLine(line, prefix, marker)
  {
    if !IsBlank(line) {
      var l := LStripChar(line, marker);
      assert x !in l by {
        forall i | 0 <= i < |l|
          ensures l[i] != x
        {
          assert l[i] == line[|line| - |l| + i];
        }
      }
      StripKeepsAbsent(l, x);
    }
  }

  lemma LastApart(p: string, x: string)
    requires p != []
    ensures p + x == p[..|p| - 1] + ([p[|p| - 1]] + x)
  {
    assert p == p[..|p| - 1] + [p[|p| - 1]];
  }

  /** A line that already has the prefix before stripped text formats to itself. */
  lemma MarkedLineKept(prefix: string, marker: char, x: string)
    requires MarkerPrefix(prefix, marker) && Stripped(x)
    ensures PrefixLine(prefix + x, prefix, marker) == prefix + x
  {
    var m := prefix[..|prefix| - 1];
    LastApart(prefix, x);
    assert (prefix + x)[0] == marker;
    assert !IsBlank(prefix + x);
    assert forall i :: 0 <= i < |m| ==> m[i] == prefix[i];
    LStripCharRun(m, [' '] + x, marker);
    StripLeadingSpace(x);
  }

  /** A formatted line formats to itself. */
  lemma PrefixLineIdempotent(line: string, prefix: string, marker: char)
    requires MarkerPrefix(prefix, marker)
    ensures PrefixLine(PrefixLine(line, prefix, marker), prefix, marker) == PrefixLine(line, prefix, marker)
  {
    if !IsBlank(line) {
      MarkedLineKept(prefix, marker, Strip(LStripChar(line, marker)));
    }
  }

  /** Formatting keeps the number of lines and formats each line on its own. */
  lemma PrefixLinesSplit(text: string, prefix: string, marker: char)
    requires '\n' !in prefix
    ensures Split(PrefixLines(text, prefix, marker), '\n') == PrefixEach(Split(text, '\n'), prefix, marker)
  {
    var lines := Split(text, '\n');
    var out := PrefixEach(lines, prefix, marker);
    forall i | 0 <= i < |out|
      ensures '\n' !in out[i]
    {
      PrefixLineChars(lines[i], prefix, marker, '\n');
    }
    JoinSplit(out, '\n');
  }

  /** Applying a line-prefix format to its own output changes nothing. */
  lemma PrefixLinesIdempotent(text: string, prefix: string, marker: char)
    requires MarkerPrefix(prefix, marker) && '\n' !in prefix
    ensures PrefixLines(PrefixLines(text, prefix, marker), prefix, marker) == PrefixLines(text, prefix, marker)
  {
    var out := PrefixEach(Split(text, '\n'), prefix, marker);
    PrefixLinesSplit(text, prefix, marker);
    var again := PrefixEach(out, prefix, marker);
    forall i | 0 <= i < |out|
      ensures again[i] == out[i]
    {
      PrefixLineIdempotent(Split(text, '\n')[i], prefix, marker);
    }
    assert again == out;
  }

  /** The three line formats of the editor are idempotent. */
  lemma FormatsIdempotent(text: string)
    ensures PrefixLines(PrefixLines(text, "# ", '#'), "# ", '#') == PrefixLines(text, "# ", '#')
    ensures PrefixLines(PrefixLines(text, "## ", '#'), "## ", '#') == PrefixLines(text, "## ", '#')
    ensures PrefixLines(PrefixLines(text, "> ", '>'), "> ", '>') == PrefixLines(text, "> ", '>')
  {
    EditorPrefixes();
    PrefixLinesIdempotent(text, "# ", '#');
    PrefixLinesIdempotent(text, "## ", '#');
    PrefixLinesIdempotent(text, "> ", '>');
  }

  lemma EditorPrefixes()
    ensures MarkerPrefix("# ", '#') && '\n' !in "# "
    ensures MarkerPrefix("## ", '#') && '\n' !in "## "
    ensures MarkerPrefix("> ", '>') && '\n' !in "> "
  {
    assert "## "[0] == '#' && "## "[1] == '#';
  }

  // ---------------------------------------------------------------------
  // extract_markdown
  // ---------------------------------------------------------------------

  /** `f` applied to every line. */
  function MapLines(f: string -> string, lines: seq<string>): (r: seq<string>)
    ensures |r| == |lines|
    ensures forall i :: 0 <= i < |lines| ==> r[i] == f(lines[i])
  {
    seq(|lines|, i requires 0 <= i < |lines| => f(lines[i]))
  }

  lemma MapLinesSnoc(f: string -> string, lines: seq<string>, i: nat)
    requires i < |lines|
    ensures MapLines(f, lines[..i + 1]) == MapLines(f, lines[..i]) + [f(lines[i])]
  {
    var a, b := MapLines(f, lines[..i + 1]), MapLines(f, lines[..i]) + [f(lines[i])];
    forall j | 0 <= j < i + 1
      ensures a[j] == b[j]
    {
      assert lines[..i + 1][j] == lines[j];
      if j < i {
        assert lines[..i][j] == lines[j];
      }
    }
  }

  function StripEach(lines: seq<string>): (r: seq<string>)
    ensures |r| == |lines|
    ensures forall i :: 0 <= i < |lines| ==> r[i] == Strip(lines[i])
  {
    MapLines(Strip, lines)
  }

  /** What `extract_markdown` returns for the editor's text: trimmed as a whole, then line by line. */
  function Extracted(widgetText: string): string {
    Join(StripEach(Split(Strip(widgetText), '\n')), "\n")
  }

  /** `extract_markdown`, with the widget's content passed in. */
  method ExtractMarkdown(widgetText: string) returns (markdown: string)
    ensures markdown == Extracted(widgetText)
  {
    var content := Strip(widgetText);
    var lines := Split(content, '\n');
    var markdownLines: seq<string> := [];
    for i := 0 to |lines|
      invariant markdownLines == StripEach(lines[..i])
    {
      var line := Strip(lines[i]);
      StripEachSnoc(lines, i);
      if line == [] {
        markdownLines := markdownLines + [[]];
      } else {
        markdownLines := markdownLines + [line];
      }
    }
    assert lines[..|lines|] == lines;
    markdown := Join(markdownLines, "\n");
  }

  lemma StripEachSnoc(lines: seq<string>, i: nat)
    requires i < |lines|
    ensures StripEach(lines[..i + 1]) == StripEach(lines[..i]) + [Strip(lines[i])]
  {
    MapLinesSnoc(Strip, lines, i);
  }

  /** The extracted text has one line per line of the trimmed text, each of them trimmed. */
  lemma ExtractedLines(widgetText: string)
    ensures Split(Extracted(widgetText), '\n') == StripEach(Split(Strip(widgetText), '\n'))
  {
    var out := StripEach(Split(Strip(widgetText), '\n'));
    forall i | 0 <= i < |out|
      ensures '\n' !in out[i]
    {
      StripKeepsAbsent(Split(Strip(widgetText), '\n')[i], '\n');
    }
    JoinSplit(out, '\n');
  }

  /** A string that starts with a non-space keeps its first character when stripped. */
  lemma StripKeepsHead(s: string)
    requires s != [] && !IsSpace(s[0])
    ensures Strip(s) != [] && Strip(s)[0] == s[0]
  {
    assert LStrip(s) == s;
  }

  /** A string that ends with a non-space keeps its last character when stripped. */
  lemma StripKeepsTail(s: string)
    requires s != [] && !IsSpace(s[|s| - 1])
    ensures var r := Strip(s); r != [] && r[|r| - 1] == s[|s| - 1]
  {
    var l := LStrip(s);
    assert l != [] && l[|l| - 1] == s[|s| - 1];
    assert RStrip(l) == l;
  }

  /** The joined text begins with the first part's first character. */
  lemma JoinHead(parts: seq<string>, sep: string)
    requires |parts| >= 1 && parts[0] != []
    ensures Join(parts, sep) != [] && Join(parts, sep)[0] == parts[0][0]
  {
    if |parts| > 1 {
      assert Join(parts, sep) == parts[0] + (sep + Join(parts[1..], sep));
    }
  }

  /** The joined text ends with the separator and the last part when there are several parts. */
  lemma {:induction false} JoinTail(parts: seq<string>, sep: string)
    requires |parts| >= 2
    ensures EndsWith(Join(parts, sep), sep + parts[|parts| - 1])
    decreases |parts|
  {
    var last := parts[|parts| - 1];
    var j := Join(parts, sep);
    var rest := Join(parts[1..], sep);
    assert j == parts[0] + sep + rest;
    if |parts| == 2 {
      assert rest == last;
    } else {
      JoinTail(parts[1..], sep);
      assert parts[1..][|parts| - 2] == last;
    }
    assert j[|j| - |sep + last|..] == (sep + last);
  }

  /** The first line of a text that starts with another character begins with that character. */
  lemma SplitHead(s: string, sep: char)
    requires s != [] && s[0] != sep
    ensures Split(s, sep)[0] != [] && Split(s, sep)[0][0] == s[0]
  {
  }

  /** The last line of a text that ends with another character ends with that character. */
  lemma SplitTail(s: string, sep: char)
    requires s != [] && s[|s| - 1] != sep
    ensures var ls := Split(s, sep); var l := ls[|ls| - 1];
      l != [] && l[|l| - 1] == s[|s| - 1]
  {
    var ls := Split(s, sep);
    var l := ls[|ls| - 1];
    SplitJoin(s, sep);
    if |ls| >= 2 {
      JoinTail(ls, [sep]);
      assert s[|s| - |[sep] + l|..] == [sep] + l;
      assert s[|s| - 1] == ([sep] + l)[|l|];
    }
  }

  /** The joined lines end with the last line's last character when that line is not empty. */
  lemma JoinLastChar(parts: seq<string>, sep: string)
    requires |parts| >= 1 && parts[|parts| - 1] != []
    ensures var j := Join(parts, sep); var l := parts[|parts| - 1];
      j != [] && j[|j| - 1] == l[|l| - 1]
  {
    var j := Join(parts, sep);
    var l := parts[|parts| - 1];
    if |parts| >= 2 {
      JoinTail(parts, sep);
      assert j[|j| - |sep + l|..] == sep + l;
      assert j[|j| - 1] == (sep + l)[|sep + l| - 1];
    }
  }

  /** Stripping keeps a first or last character that is not white space. */
  lemma StripKeepsEnds()
    ensures forall x {:trigger Strip(x)} :: x != [] && !IsSpace(x[0]) ==> Strip(x) != [] && Strip(x)[0] == x[0]
    ensures forall x {:trigger Strip(x)} :: x != [] && !IsSpace(x[|x| - 1]) ==>
      Strip(x) != [] && Strip(x)[|Strip(x)| - 1] == x[|x| - 1]
  {
    forall x | x != [] && !IsSpace(x[0])
      ensures Strip(x) != [] && Strip(x)[0] == x[0]
    {
      StripKeepsHead(x);
    }
    forall x | x != [] && !IsSpace(x[|x| - 1])
      ensures Strip(x) != [] && Strip(x)[|Strip(x)| - 1] == x[|x| - 1]
    {
      StripKeepsTail(x);
    }
  }

  /**
   * Lines whose first line starts, and whose last line ends, with a
   * character other than white space, each mapped by an `f` that keeps
   * such end characters and joined again, give a text with no white space
   * at either end.
   */
  lemma JoinedEndsKept(f: string -> string, ls: seq<string>)
    requires |ls| >= 1
    requires ls[0] != [] && !IsSpace(ls[0][0])
    requires ls[|ls| - 1] != [] && !IsSpace(ls[|ls| - 1][|ls[|ls| - 1]| - 1])
    requires forall x {:trigger f(x)} :: x != [] && !IsSpace(x[0]) ==> f(x) != [] && f(x)[0] == x[0]
    requires forall x {:trigger f(x)} :: x != [] && !IsSpace(x[|x| - 1]) ==> f(x) != [] && f(x)[|f(x)| - 1] == x[|x| - 1]
    ensures Stripped(Join(MapLines(f, ls), "\n"))
  {
    var out := MapLines(f, ls);
    assert out[0] == f(ls[0]);
    assert out[|out| - 1] == f(ls[|ls| - 1]);
    JoinHead(out, "\n");
    JoinLastChar(out, "\n");
  }

  /** The extracted text has no white space at either end. */
  lemma ExtractedStripped(widgetText: string)
    ensures Stripped(Extracted(widgetText))
  {
    var c := Strip(widgetText);
    if c != [] {
      StrippedLinesStripped(c);
    }
  }

  /** Text with no white space at either end keeps that when each of its lines is trimmed. */
  lemma StrippedLinesStripped(c: string)
    requires c != [] && Stripped(c)
    ensures Stripped(Join(StripEach(Split(c, '\n')), "\n"))
  {
    var ls := Split(c, '\n');
    assert ls[0] != [] && !IsSpace(ls[0][0]) by {
      assert c[0] != '\n';
      SplitHead(c, '\n');
    }
    assert ls[|ls| - 1] != [] && !IsSpace(ls[|ls| - 1][|ls[|ls| - 1]| - 1]) by {
      assert c[|c| - 1] != '\n';
      SplitTail(c, '\n');
    }
    StrippedEachJoined(ls);
  }

  lemma StrippedEachJoined(ls: seq<string>)
    requires |ls| >= 1
    requires ls[0] != [] && !IsSpace(ls[0][0])
    requires ls[|ls| - 1] != [] && !IsSpace(ls[|ls| - 1][|ls[|ls| - 1]| - 1])
    ensures Stripped(Join(StripEach(ls), "\n"))
  {
    StripKeepsEnds();
    JoinedEndsKept(Strip, ls);
  }

  lemma StripEachTwice(lines: seq<string>)
    ensures StripEach(StripEach(lines)) == StripEach(lines)
  {
    forall i | 0 <= i < |lines|
      ensures Strip(Strip(lines[i])) == Strip(lines[i])
    {
      StripIdempotent(lines[i]);
    }
  }

  /** Extracting again from extracted text changes nothing. */
  lemma ExtractedIdempotent(widgetText: string)
    ensures Extracted(Extracted(widgetText)) == Extracted(widgetText)
  {
    var e := Extracted(widgetText);
    var ls := Split(Strip(widgetText), '\n');
    ExtractedStripped(widgetText);
    StripStripped(e);
    ExtractedLines(widgetText);
    StripEachTwice(ls);
  }

  // ---------------------------------------------------------------------
  // clean_notion_spacing
  // ---------------------------------------------------------------------

  /** The length of the run of `c`s that `s` starts with. */
  function LeadingRun(s: string, c: char): (k: nat)
    ensures k <= |s|
    ensures forall i :: 0 <= i < k ==> s[i] == c
    ensures k < |s| ==> s[k] != c
    decreases |s|
  {
    if s != [] && s[0] == c then 1 + LeadingRun(s[1..], c) else 0
  }

  /** `re.sub(r'\n{3,}', '\n\n', s)`: every run of three or more line feeds becomes two. */
  function CollapseBreaks(s: string): string
    decreases |s|
  {
    if s == [] then []
    else if s[0] == '\n' then
      var k := LeadingRun(s, '\n');
      (if k >= 3 then "\n\n" else s[..k]) + CollapseBreaks(s[k..])
    else [s[0]] + CollapseBreaks(s[1..])
  }

  /** `re.sub(r' +$', '', s, flags=re.M)`: a run of spaces that ends a line, or the text, is removed. */
  function TrimLineEnds(s: string): string
    decreases |s|
  {
    if s == [] then []
    else if s[0] == ' ' then
      var k := LeadingRun(s, ' ');
      if k == |s| || s[k] == '\n' then TrimLineEnds(s[k..]) else s[..k] + TrimLineEnds(s[k..])
    else [s[0]] + TrimLineEnds(s[1..])
  }

  /** `clean_notion_spacing` as written: collapse the runs of line feeds, then trim the line ends. */
  function CleanNotionSpacing(content: string): string {
    TrimLineEnds(CollapseBreaks(content))
  }

  /** No three line feeds in a row, that is, never more than one empty line between two lines. */
  predicate NoTripleBreak(s: string) {
    forall i :: 0 <= i < |s| - 2 ==> !(s[i] == '\n' && s[i + 1] == '\n' && s[i + 2] == '\n')
  }

  /** No line, and not the text, ends with a space. */
  predicate NoTrailingSpace(s: string) {
    forall i :: 0 <= i < |s| && s[i] == ' ' ==> i + 1 < |s| && s[i + 1] != '\n'
  }

  /** The text with its line feeds and spaces removed: what the two substitutions must not touch. */
  function Visible(s: string): (r: string)
    ensures |r| <= |s|
    ensures forall c :: c in r ==> c in s && c != '\n' && c != ' '
    decreases |s|
  {
    if s == [] then []
    else (if s[0] == '\n' || s[0] == ' ' then [] else [s[0]]) + Visible(s[1..])
  }

  lemma {:induction false} VisibleAppend(a: string, b: string)
    ensures Visible(a + b) == Visible(a) + Visible(b)
    decreases |a|
  {
    if a == [] {
      assert a + b == b;
    } else {
      var h := if a[0] == '\n' || a[0] == ' ' then [] else [a[0]];
      assert (a + b)[0] == a[0];
      assert (a + b)[1..] == a[1..] + b;
      assert Visible(a + b) == h + Visible(a[1..] + b);
      VisibleAppend(a[1..], b);
      assert Visible(a) == h + Visible(a[1..]);
    }
  }

  lemma {:induction false} VisibleOfBlank(s: string)
    requires forall i :: 0 <= i < |s| ==> s[i] == '\n' || s[i] == ' '
    ensures Visible(s) == []
    decreases |s|
  {
    if s != [] {
      VisibleOfBlank(s[1..]);
    }
  }

  lemma CollapseBreaksHead(s: string)
    requires s != [] && s[0] != '\n'
    ensures CollapseBreaks(s) != [] && CollapseBreaks(s)[0] == s[0]
  {
  }

  lemma TrimLineEndsHead(s: string)
    requires s != [] && s[0] != ' '
    ensures TrimLineEnds(s) != [] && TrimLineEnds(s)[0] == s[0]
  {
  }

  /** After the first step no run of three line feeds is left. */
  lemma {:induction false} CollapseBreaksNoTriple(s: string)
    ensures NoTripleBreak(CollapseBreaks(s))
    decreases |s|
  {
    if s == [] {
    } else if s[0] == '\n' {
      var k := LeadingRun(s, '\n');
      var p := if k >= 3 then "\n\n" else s[..k];
      var rest := s[k..];
      var tail := CollapseBreaks(rest);
      CollapseBreaksNoTriple(rest);
      var r := p + tail;
      assert r == CollapseBreaks(s);
      forall i | 0 <= i < |r| - 2
        ensures !(r[i] == '\n' && r[i + 1] == '\n' && r[i + 2] == '\n')
      {
        if i >= |p| {
          assert r[i] == tail[i - |p|] && r[i + 1] == tail[i - |p| + 1] && r[i + 2] == tail[i - |p| + 2];
        } else {
          assert rest != [] && rest[0] != '\n';
          CollapseBreaksHead(rest);
          assert r[|p|] == tail[0];
        }
      }
    } else {
      var tail := CollapseBreaks(s[1..]);
      CollapseBreaksNoTriple(s[1..]);
      var r := [s[0]] + tail;
      assert r == CollapseBreaks(s);
      forall i | 0 <= i < |r| - 2
        ensures !(r[i] == '\n' && r[i + 1] == '\n' && r[i + 2] == '\n')
      {
        if i >= 1 {
          assert r[i] == tail[i - 1] && r[i + 1] == tail[i] && r[i + 2] == tail[i + 1];
        }
      }
    }
  }

  /** After the second step no line ends with a space. */
  lemma {:induction false} TrimLineEndsNoTrailing(s: string)
    ensures NoTrailingSpace(TrimLineEnds(s))
    decreases |s|
  {
    if s == [] {
    } else if s[0] == ' ' {
      var k := LeadingRun(s, ' ');
      var tail := TrimLineEnds(s[k..]);
      TrimLineEndsNoTrailing(s[k..]);
      if !(k == |s| || s[k] == '\n') {
        var r := s[..k] + tail;
        assert r == TrimLineEnds(s);
        TrimLineEndsHead(s[k..]);
        forall i | 0 <= i < |r| && r[i] == ' '
          ensures i + 1 < |r| && r[i + 1] != '\n'
        {
          if i >= k {
            assert r[i] == tail[i - k];
            assert i + 1 < |r| ==> r[i + 1] == tail[i - k + 1];
          } else if i + 1 == k {
            assert r[k] == tail[0];
          }
        }
      }
    } else {
      var tail := TrimLineEnds(s[1..]);
      TrimLineEndsNoTrailing(s[1..]);
      var r := [s[0]] + tail;
      assert r == TrimLineEnds(s);
      forall i | 0 <= i < |r| && r[i] == ' '
        ensures i + 1 < |r| && r[i + 1] != '\n'
      {
        assert i >= 1 && r[i] == tail[i - 1];
        assert i + 1 < |r| ==> r[i + 1] == tail[i];
      }
    }
  }

  /** Collapsing runs of line feeds never leaves a space at the end of a line. */
  lemma {:induction false} CollapseKeepsNoTrailing(s: string)
    requires NoTrailingSpace(s)
    ensures NoTrailingSpace(CollapseBreaks(s))
    decreases |s|
  {
    if s == [] {
    } else if s[0] == '\n' {
      var k := LeadingRun(s, '\n');
      var p := if k >= 3 then "\n\n" else s[..k];
      var rest := s[k..];
      NoTrailingSpaceSuffix(s, k);
      var tail := CollapseBreaks(rest);
      CollapseKeepsNoTrailing(rest);
      var r := p + tail;
      assert r == CollapseBreaks(s);
      forall i | 0 <= i < |r| && r[i] == ' '
        ensures i + 1 < |r| && r[i + 1] != '\n'
      {
        assert i >= |p| && r[i] == tail[i - |p|];
        assert i + 1 < |r| ==> r[i + 1] == tail[i - |p| + 1];
      }
    } else {
      var rest := s[1..];
      NoTrailingSpaceSuffix(s, 1);
      var tail := CollapseBreaks(rest);
      CollapseKeepsNoTrailing(rest);
      var r := [s[0]] + tail;
      assert r == CollapseBreaks(s);
      if s[0] == ' ' {
        assert |s| > 1 && s[1] != '\n';
        CollapseBreaksHead(rest);
      }
      forall i | 0 <= i < |r| && r[i] == ' '
        ensures i + 1 < |r| && r[i + 1] != '\n'
      {
        if i >= 1 {
          assert r[i] == tail[i - 1];
          assert i + 1 < |r| ==> r[i + 1] == tail[i];
        } else {
          assert r[1] == tail[0];
        }
      }
    }
  }

  /** Collapsing removes line feeds only. */
  lemma {:induction false} CollapseKeepsVisible(s: string)
    ensures Visible(CollapseBreaks(s)) == Visible(s)
    decreases |s|
  {
    if s == [] {
    } else if s[0] == '\n' {
      var k := LeadingRun(s, '\n');
      var p := if k >= 3 then "\n\n" else s[..k];
      CollapseKeepsVisible(s[k..]);
      VisibleAppend(p, CollapseBreaks(s[k..]));
      VisibleOfBlank(p);
      VisibleOfBlank(s[..k]);
      assert s == s[..k] + s[k..];
      VisibleAppend(s[..k], s[k..]);
    } else {
      CollapseKeepsVisible(s[1..]);
      VisibleAppend([s[0]], CollapseBreaks(s[1..]));
    }
  }

  /** Trimming line ends removes spaces only. */
  lemma {:induction false} TrimKeepsVisible(s: string)
    ensures Visible(TrimLineEnds(s)) == Visible(s)
    decreases |s|
  {
    if s == [] {
    } else if s[0] == ' ' {
      var k := LeadingRun(s, ' ');
      TrimKeepsVisible(s[k..]);
      VisibleOfBlank(s[..k]);
      assert s == s[..k] + s[k..];
      VisibleAppend(s[..k], s[k..]);
      VisibleAppend(s[..k], TrimLineEnds(s[k..]));
    } else {
      TrimKeepsVisible(s[1..]);
      VisibleAppend([s[0]], TrimLineEnds(s[1..]));
    }
  }

  /**
   * The order of the two steps lets a blank line made only of spaces
   * join the line feeds around it after the collapse has run: three
   * line feeds in a row survive.
   */
  lemma CleanNotionSpacingLeavesTriple()
    ensures CleanNotionSpacing("\n \n\n") == "\n\n\n"
    ensures !NoTripleBreak(CleanNotionSpacing("\n \n\n"))
  {
    var s := "\n \n\n";
    assert LeadingRun(s, '\n') == 1;
    assert LeadingRun(s[1..], ' ') == 1;
    assert LeadingRun(s[2..], '\n') == 2;
    assert CollapseBreaks(s[2..]) == "\n\n";
    assert CollapseBreaks(s[1..]) == " \n\n";
    assert CollapseBreaks(s) == s;
    assert LeadingRun(s[2..], '\n') == 2;
    assert TrimLineEnds(s[2..]) == "\n\n";
    assert TrimLineEnds(s[1..]) == "\n\n";
    assert TrimLineEnds(s) == "\n\n\n";
    var r := "\n\n\n";
    assert r[0] == '\n' && r[1] == '\n' && r[2] == '\n';
  }

  /**
   * The clean-up the comments of `clean_notion_spacing` describe: trim the
   * line ends first, then collapse the runs of line feeds. Its result has
   * neither trailing spaces nor more than one empty line in a row, and only
   * spaces and line feeds differ from the input.
   */
  function CleanSpacing(content: string): (r: string)
    ensures NoTripleBreak(r) && NoTrailingSpace(r)
    ensures Visible(r) == Visible(content)
  {
    var t := TrimLineEnds(content);
    TrimLineEndsNoTrailing(content);
    CollapseKeepsNoTrailing(t);
    CollapseBreaksNoTriple(t);
    CollapseKeepsVisible(t);
    TrimKeepsVisible(content);
    CollapseBreaks(t)
  }

  /** The collapse step alone, as written, does meet both promises on text without blank lines of spaces. */
  lemma CleanNotionSpacingOfTrimmed(content: string)
    requires NoTrailingSpace(content)
    ensures CleanNotionSpacing(content) == CleanSpacing(content)
  {
    TrimLineEndsFixed(content);
    CollapseKeepsNoTrailing(content);
    TrimLineEndsFixed(CollapseBreaks(content));
  }

  lemma NoTrailingSpaceSuffix(s: string, k: nat)
    requires NoTrailingSpace(s) && k <= |s|
    ensures NoTrailingSpace(s[k..])
  {
    var rest := s[k..];
    forall j | 0 <= j < |rest| && rest[j] == ' '
      ensures j + 1 < |rest| && rest[j + 1] != '\n'
    {
      assert s[k + j] == ' ';
    }
  }

  /** A run of spaces that is not at a line end is kept, and the scan goes on after it. */
  lemma InnerSpaceRunKept(s: string)
    requires s != [] && s[0] == ' ' && NoTrailingSpace(s)
    ensures var k := LeadingRun(s, ' ');
      k < |s| && TrimLineEnds(s) == s[..k] + TrimLineEnds(s[k..])
  {
    var k := LeadingRun(s, ' ');
    assert s[k - 1] == ' ';
  }

  /** Text without trailing spaces is left alone by the second step. */
  lemma {:induction false} TrimLineEndsFixed(s: string)
    requires NoTrailingSpace(s)
    ensures TrimLineEnds(s) == s
    decreases |s|
  {
    if s == [] {
    } else if s[0] == ' ' {
      var k := LeadingRun(s, ' ');
      InnerSpaceRunKept(s);
      NoTrailingSpaceSuffix(s, k);
      TrimLineEndsFixed(s[k..]);
      assert s == s[..k] + s[k..];
    } else {
      var rest := s[1..];
      NoTrailingSpaceSuffix(s, 1);
      TrimLineEndsFixed(rest);
      assert [s[0]] + rest == s;
    }
  }

  // ---------------------------------------------------------------------
  // TextRedirector.write
  // ---------------------------------------------------------------------

  /** A character of the basic multilingual plane, which the console widget can show. */
  predicate InBmp(c: char) { c as int <= 0xFFFF }

  /** The characters of `s` that lie in the basic multilingual plane, in their order. */
  function BmpOnly(s: string): (r: string)
    ensures |r| <= |s|
    ensures forall i :: 0 <= i < |r| ==> InBmp(r[i])
    ensures forall c :: c in r ==> c in s
    decreases |s|
  {
    if s == [] then [] else (if InBmp(s[0]) then [s[0]] else []) + BmpOnly(s[1..])
  }

  /** Filtering two pieces one after the other is filtering their concatenation. */
  lemma {:induction false} BmpOnlyAppend(a: string, b: string)
    ensures BmpOnly(a + b) == BmpOnly(a) + BmpOnly(b)
    decreases |a|
  {
    if a == [] {
      assert a + b == b;
    } else {
      assert (a + b)[0] == a[0];
      assert (a + b)[1..] == a[1..] + b;
      BmpOnlyAppend(a[1..], b);
    }
  }

  /** Text wholly in the basic multilingual plane passes unchanged. */
  lemma {:induction false} BmpOnlyKeeps(s: string)
    requires forall i :: 0 <= i < |s| ==> InBmp(s[i])
    ensures BmpOnly(s) == s
    decreases |s|
  {
    if s != [] {
      BmpOnlyKeeps(s[1..]);
    }
  }

  /** Nothing is left exactly when no character lies in the basic multilingual plane. */
  lemma {:induction false} BmpOnlyEmpty(s: string)
    ensures BmpOnly(s) == [] <==> forall i :: 0 <= i < |s| ==> !InBmp(s[i])
    decreases |s|
  {
    if s != [] {
      BmpOnlyEmpty(s[1..]);
      assert forall i :: 1 <= i < |s| ==> s[i] == s[1..][i - 1];
    }
  }

  /** The console, a redirect of standard output into a widget whose text is `shown`. */
  class TextRedirector {
    var shown: string

    constructor (initial: string)
      ensures shown == initial
    {
      shown := initial;
    }

    /** `write`: append the printable part of `data`; `wrote` says whether the widget was touched. */
    method Write(data: string) returns (wrote: bool)
      modifies this
      ensures wrote <==> exists i :: 0 <= i < |data| && InBmp(data[i])
      ensures shown == old(shown) + BmpOnly(data)
    {
      var clean := BmpOnly(data);
      BmpOnlyEmpty(data);
      wrote := clean != [];
      if wrote {
        shown := shown + clean;
      }
    }
  }

  // ---------------------------------------------------------------------
  // The names of added images
  // ---------------------------------------------------------------------

  /** The file an added image is saved under: `pasted_image_{n}.png`. */
  function PastedName(n: nat): string {
    "pasted_image_" + NatToString(n) + ".png"
  }

  /** Different counter values give different file names. */
  lemma PastedNamesDistinct(a: nat, b: nat)
    requires a != b
    ensures PastedName(a) != PastedName(b)
  {
    if PastedName(a) == PastedName(b) {
      var x, y := PastedName(a), PastedName(b);
      assert x[13..|x| - 4] == NatToString(a);
      assert y[13..|y| - 4] == NatToString(b);
      NatToStringInjective(a, b);
    }
  }

  /**
   * The editor's image bookkeeping: `imageCounter`, and `images`, the
   * images kept alive for display, here named by the file each was saved
   * as. `issued` holds the names handed out since the last clear.
   */
  class RichTextEditor {
    var imageCounter: nat
    var images: seq<string>
    ghost var issued: seq<string>

    ghost predicate Valid()
      reads this
    {
      |issued| == imageCounter
      && forall j :: 0 <= j < |issued| ==> issued[j] == PastedName(j + 1)
    }

    constructor ()
      ensures Valid() && imageCounter == 0 && images == [] && issued == []
    {
      imageCounter := 0;
      images := [];
      issued := [];
    }

    /**
     * `add_image` once the file dialog has returned a path. `loaded` says
     * whether the image opens; `saved` whether saving it and building its
     * thumbnail then succeed. The counter goes up as soon as the image
     * opens, before the save, so a failure after that still uses up the
     * number, and the image is kept only when every step succeeds.
     */
    method AddImage(loaded: bool, saved: bool) returns (name: Option<string>)
      requires Valid()
      modifies this
      ensures Valid()
      ensures !loaded ==> name.None? && imageCounter == old(imageCounter) && images == old(images) && issued == old(issued)
      ensures loaded ==> imageCounter == old(imageCounter) + 1 && PastedName(imageCounter) !in old(issued)
      ensures loaded ==> issued == old(issued) + [PastedName(imageCounter)]
      ensures loaded && saved ==> name == Some(PastedName(imageCounter)) && images == old(images) + [name.value]
      ensures loaded && !saved ==> name.None? && images == old(images)
    {
      if !loaded {
        return None;
      }
      imageCounter := imageCounter + 1;
      var fileName := PastedName(imageCounter);
      forall j | 0 <= j < |issued|
        ensures issued[j] != fileName
      {
        PastedNamesDistinct(j + 1, imageCounter);
      }
      issued := issued + [fileName];
      if !saved {
        return None;
      }
      images := images + [fileName];
      name := Some(fileName);
    }

    /** `clear_editor`: the images are dropped and numbering starts again at 1. */
    method ClearEditor()
      modifies this
      ensures Valid() && imageCounter == 0 && images == [] && issued == []
    {
      images := [];
      imageCounter := 0;
      issued := [];
    }
  }

  /**
   * An image that opens but fails to save still uses up its number: on a
   * fresh editor, the next image that saves is `pasted_image_2.png`.
   */
  method FailedSaveSkipsNumber() returns (name: Option<string>)
    ensures name == Some("pasted_image_2.png")
  {
    var editor := new RichTextEditor();
    var first := editor.AddImage(true, false);
    name := editor.AddImage(true, true);
    assert editor.imageCounter == 2;
    assert NatToString(2) == [DigitChar(2)] == "2";
    assert PastedName(2) == "pasted_image_2.png";
  }
}
