/**
 * blog_publisher.py's `publish_to_blog`: a post for a local Next.js blog is
 * one Markdown file whose name comes from a sanitised slug and whose text is a
 * YAML front matter (title, excerpt, date, author, published flag) followed
 * by the content. The clock readings and the existence of the posts folder
 * are parameters; the write itself is left to the caller.
 */
module Blog {
  import opened Wrappers
  import opened Strings
  import opened Paths

  /** `BLOG_POSTS_DIR`. */
  const BlogPostsDir: string := "/Users/hugo/personal-blog/posts"
  /** The default of the `author` parameter. */
  const DefaultAuthor: string := "Hugo"

  /** A reading of `datetime.datetime.now()` down to the second. */
  datatype DateTime = DateTime(year: nat, month: nat, day: nat, hour: nat, minute: nat, second: nat)

  /** The ranges Python's `datetime` guarantees for its fields. */
  predicate ValidTime(t: DateTime) {
    1 <= t.year <= 9999 && 1 <= t.month <= 12 && 1 <= t.day <= 31
    && t.hour < 24 && t.minute < 60 && t.second < 60
  }

  function Pow10(w: nat): (r: nat)
    ensures r >= 1
  {
    if w == 0 then 1 else 10 * Pow10(w - 1)
  }

  /** The last `w` decimal digits of `n`, most significant first (`%02d`, `%04d`). */
  function Padded(n: nat, w: nat): (r: string)
    ensures |r| == w && forall i :: 0 <= i < w ==> IsDigit(r[i])
  {
    if w == 0 then [] else Padded(n / 10, w - 1) + [DigitChar(n % 10)]
  }

  /** A number below `10^w` is read back from its `w` padded digits. */
  lemma {:induction false} PaddedRoundTrip(n: nat, w: nat)
    requires n < Pow10(w)
    ensures DigitsValue(Padded(n, w)) == n
  {
    if w > 0 {
      assert n / 10 < Pow10(w - 1);
      PaddedRoundTrip(n / 10, w - 1);
      var s := Padded(n, w);
      assert s[..|s| - 1] == Padded(n / 10, w - 1);
    }
  }

  /** `strftime("%Y-%m-%d")`. */
  function DateText(t: DateTime): string {
    Padded(t.year, 4) + "-" + Padded(t.month, 2) + "-" + Padded(t.day, 2)
  }

  /** `strftime("%Y%m%d%H%M%S")`. */
  function Stamp(t: DateTime): string {
    Padded(t.year, 4) + Padded(t.month, 2) + Padded(t.day, 2)
    + Padded(t.hour, 2) + Padded(t.minute, 2) + Padded(t.second, 2)
  }

  /** The reading a 14-digit stamp encodes. */
  function ParseStamp(s: string): DateTime
    requires |s| == 14 && forall i :: 0 <= i < 14 ==> IsDigit(s[i])
  {
    DateTime(DigitsValue(s[..4]), DigitsValue(s[4..6]), DigitsValue(s[6..8]),
      DigitsValue(s[8..10]), DigitsValue(s[10..12]), DigitsValue(s[12..]))
  }

  /** The stamp is fourteen digits from which the reading is recovered, so distinct seconds give distinct stamps. */
  lemma StampRoundTrip(t: DateTime)
    requires ValidTime(t)
    ensures var s := Stamp(t); |s| == 14 && (forall i :: 0 <= i < 14 ==> IsDigit(s[i])) && ParseStamp(s) == t
  {
    var s := Stamp(t);
    var y, mo, d, h, mi, se := Padded(t.year, 4), Padded(t.month, 2), Padded(t.day, 2),
      Padded(t.hour, 2), Padded(t.minute, 2), Padded(t.second, 2);
    assert s == y + mo + d + h + mi + se;
    assert s[..4] == y && s[4..6] == mo && s[6..8] == d;
    assert s[8..10] == h && s[10..12] == mi && s[12..] == se;
    PaddedRoundTrip(t.year, 4);
    PaddedRoundTrip(t.month, 2);
    PaddedRoundTrip(t.day, 2);
    PaddedRoundTrip(t.hour, 2);
    PaddedRoundTrip(t.minute, 2);
    PaddedRoundTrip(t.second, 2);
  }

  /** The date is `YYYY-MM-DD`: ten characters, dashes at 4 and 7, digits elsewhere. */
  lemma DateTextShape(t: DateTime)
    ensures var s := DateText(t);
      |s| == 10 && s[4] == '-' && s[7] == '-'
      && forall i :: 0 <= i < 10 && i != 4 && i != 7 ==> IsDigit(s[i])
  {
    var s := DateText(t);
    var y, m, d := Padded(t.year, 4), Padded(t.month, 2), Padded(t.day, 2);
    assert s == y + "-" + m + "-" + d;
    forall i | 0 <= i < 10 && i != 4 && i != 7
      ensures IsDigit(s[i])
    {
      if i < 4 {
        assert s[i] == y[i];
      } else if i < 7 {
        assert s[i] == m[i - 5];
      } else {
        assert s[i] == d[i - 8];
      }
    }
  }

  /** The characters the filename pattern keeps: ASCII letters and digits, `-`, and CJK ideographs. */
  predicate SlugChar(c: char) {
    IsAsciiAlnum(c) || c == '-' || IsCjk(c)
  }

  /** `re.sub(r'[^a-zA-Z0-9\-一-龥]', '_', text)`: one `_` for each other character. */
  function Sanitize(s: string): (r: string)
    ensures |r| == |s|
    ensures forall i :: 0 <= i < |r| ==> SlugChar(r[i]) || r[i] == '_'
    ensures forall i :: 0 <= i < |s| && SlugChar(s[i]) ==> r[i] == s[i]
    ensures forall i :: 0 <= i < |s| && !SlugChar(s[i]) ==> r[i] == '_'
  {
    seq(|s|, i requires 0 <= i < |s| => if SlugChar(s[i]) then s[i] else '_')
  }

  /** `safe_filename`: the sanitised text without leading or trailing `_`. */
  function SafeFilename(text: string): string {
    StripChar(Sanitize(text), '_')
  }

  /** `n` underscores. */
  function Underscores(n: nat): (r: string)
    ensures |r| == n && forall i :: 0 <= i < n ==> r[i] == '_'
  {
    seq(n, _ => '_')
  }

  /** The safe name holds only kept characters and inner underscores. */
  lemma SafeFilenameChars(text: string)
    ensures var r := SafeFilename(text);
      (r == [] || (r[0] != '_' && r[|r| - 1] != '_'))
      && forall i :: 0 <= i < |r| ==> SlugChar(r[i]) || r[i] == '_'
  {
    var m := Sanitize(text);
    var r := StripChar(m, '_');
    StripCharChars(m, '_');
    forall i | 0 <= i < |r|
      ensures SlugChar(r[i]) || r[i] == '_'
    {
      var j :| 0 <= j < |m| && m[j] == r[i];
    }
  }

  /** The safe name is the sanitised text with only underscores cut from its two ends. */
  lemma SafeFilenameSlice(text: string)
    ensures var r := SafeFilename(text);
      exists lo :: 0 <= lo <= |text| - |r| && Sanitize(text) == Underscores(lo) + r + Underscores(|text| - lo - |r|)
  {
    UnderscoreSlice(Sanitize(text));
  }

  /** Cutting underscores from both ends of `m` leaves a slice with only underscores around it. */
  lemma UnderscoreSlice(m: string)
    ensures var r := StripChar(m, '_');
      exists lo :: 0 <= lo <= |m| - |r| && m == Underscores(lo) + r + Underscores(|m| - lo - |r|)
  {
    var l := LStripChar(m, '_');
    var r := RStripChar(l, '_');
    var lo := |m| - |l|;
    var tail := |m| - lo - |r|;
    var x := Underscores(lo) + r + Underscores(tail);
    assert |x| == |m|;
    forall i | 0 <= i < |m|
      ensures m[i] == x[i]
    {
      if i < lo {
        assert m[i] == '_';
      } else if i < lo + |r| {
        assert x[i] == r[i - lo] == l[i - lo];
      } else {
        assert l[i - lo] == m[i];
        assert m[i] == '_';
      }
    }
    assert m == x;
  }

  /** Text made of kept characters only is its own sanitised form. */
  lemma SanitizeKeeps(s: string)
    requires forall i :: 0 <= i < |s| ==> SlugChar(s[i]) || s[i] == '_'
    ensures Sanitize(s) == s
  {
  }

  /** `safe_filename` is idempotent. */
  lemma SafeFilenameIdempotent(text: string)
    ensures SafeFilename(SafeFilename(text)) == SafeFilename(text)
  {
    var r := SafeFilename(text);
    SafeFilenameChars(text);
    SanitizeKeeps(r);
    assert LStripChar(r, '_') == r;
    assert RStripChar(r, '_') == r;
  }

  /** A safe name never holds a path separator or a dot. */
  lemma SafeFilenameNoSeparator(text: string)
    ensures var r := SafeFilename(text); '/' !in r && '\\' !in r && '.' !in r
  {
    var r := SafeFilename(text);
    SafeFilenameChars(text);
    forall i | 0 <= i < |r|
      ensures r[i] != '/' && r[i] != '\\' && r[i] != '.'
    {
      assert SlugChar(r[i]) || r[i] == '_';
    }
  }

  /**
   * The slug: a non-empty custom slug wins even when nothing of it survives
   * sanitising; otherwise the sanitised title, or the clock stamp when the
   * title has no kept character.
   */
  function Slug(title: string, customSlug: Option<string>, now: DateTime): string {
    if customSlug.Some? && customSlug.value != [] then SafeFilename(customSlug.value)
    else
      var t := SafeFilename(title);
      if t == [] then Stamp(now) else t
  }

  /** A title of ASCII letters is its own slug. */
  lemma SlugOfLetters(title: string, now: DateTime)
    requires title != [] && forall i :: 0 <= i < |title| ==> IsAsciiLetter(title[i])
    ensures Slug(title, None, now) == title
  {
    SanitizeKeeps(title);
    assert LStripChar(title, '_') == title;
    assert RStripChar(title, '_') == title;
  }

  /** Without a custom slug the slug is the safe title, or the stamp when that is empty; it is never empty. */
  lemma SlugFromTitle(title: string, customSlug: Option<string>, now: DateTime)
    requires customSlug.None? || customSlug.value == []
    requires ValidTime(now)
    ensures var s := Slug(title, customSlug, now);
      s != [] && s == (if SafeFilename(title) != [] then SafeFilename(title) else Stamp(now))
  {
    StampRoundTrip(now);
  }

  /**
   * A non-empty custom slug is used, sanitised, whatever the title; one
   * without a single kept character gives the empty slug, so the file name
   * is `.md`.
   */
  lemma SlugCustomEmpty(title: string, c: string, now: DateTime)
    requires c != []
    ensures Slug(title, Some(c), now) == SafeFilename(c)
    ensures (forall i :: 0 <= i < |c| ==> !SlugChar(c[i])) ==> Slug(title, Some(c), now) + ".md" == ".md"
  {
    if forall i :: 0 <= i < |c| ==> !SlugChar(c[i]) {
      var m := Sanitize(c);
      assert forall i :: 0 <= i < |m| ==> m[i] == '_';
      StripCharChars(m, '_');
    }
  }

  /** Every slug is free of path separators. */
  lemma SlugNoSeparator(title: string, customSlug: Option<string>, now: DateTime)
    requires ValidTime(now)
    ensures '/' !in Slug(title, customSlug, now)
  {
    SafeFilenameNoSeparator(title);
    if customSlug.Some? {
      SafeFilenameNoSeparator(customSlug.value);
    }
    StampRoundTrip(now);
  }

  /** The characters `#`, `*`, backtick, `[` and `]` that the excerpt deletes. */
  predicate Mark(c: char) {
    c == '#' || c == '*' || c == '`' || c == '[' || c == ']'
  }

  /** `re.sub(r'[#*`\[\]]', '', s)`. */
  function DropMarks(s: string): (r: string)
    ensures |r| <= |s|
    ensures forall i :: 0 <= i < |r| ==> !Mark(r[i])
    ensures forall c :: c in r ==> c in s
    decreases |s|
  {
    if s == [] then [] else (if Mark(s[0]) then [] else [s[0]]) + DropMarks(s[1..])
  }

  /** Every character other than a mark survives, as often as in the input. */
  lemma {:induction false} DropMarksCounts(s: string, c: char)
    ensures multiset(DropMarks(s))[c] == if Mark(c) then 0 else multiset(s)[c]
    decreases |s|
  {
    if s != [] {
      DropMarksCounts(s[1..], c);
      assert s == [s[0]] + s[1..];
    }
  }

  /** Deleting marks works piecewise. */
  lemma {:induction false} DropMarksAppend(a: string, b: string)
    ensures DropMarks(a + b) == DropMarks(a) + DropMarks(b)
    decreases |a|
  {
    if a == [] {
      assert a + b == b;
    } else {
      assert (a + b)[1..] == a[1..] + b;
      DropMarksAppend(a[1..], b);
    }
  }

  /** Text without marks is kept whole. */
  lemma {:induction false} DropMarksPlain(s: string)
    requires forall i :: 0 <= i < |s| ==> !Mark(s[i])
    ensures DropMarks(s) == s
    decreases |s|
  {
    if s != [] {
      DropMarksPlain(s[1..]);
      assert [s[0]] + s[1..] == s;
    }
  }

  /** `s[:n]`. */
  function Prefix(s: string, n: nat): (r: string)
    ensures |r| == if |s| < n then |s| else n
    ensures StartsWith(s, r)
  {
    if |s| <= n then s else s[..n]
  }

  const ExcerptLength: nat := 150

  /** The excerpt: marks deleted, cut to 150 characters, line feeds made spaces, stripped, then `...`. */
  function Excerpt(content: string): string {
    Strip(ReplaceAll(Prefix(DropMarks(content), ExcerptLength), "\n", " ")) + "..."
  }

  /** The excerpt is one line of at most 153 characters, free of marks, ending in `...`. */
  lemma ExcerptShape(content: string)
    ensures var e := Excerpt(content);
      |e| <= ExcerptLength + 3 && EndsWith(e, "...") && '\n' !in e
      && forall i :: 0 <= i < |e| ==> !Mark(e[i])
  {
    ExcerptText(content);
    DotsAppended(Strip(ReplaceAll(Prefix(DropMarks(content), ExcerptLength), "\n", " ")));
  }

  /** A short one-line text without marks, followed by `...`, is a short one-line text without marks. */
  lemma DotsAppended(s: string)
    requires |s| <= ExcerptLength && forall c :: c in s ==> c != '\n' && !Mark(c)
    ensures var e := s + "...";
      |e| <= ExcerptLength + 3 && EndsWith(e, "...") && '\n' !in e
      && forall i :: 0 <= i < |e| ==> !Mark(e[i])
  {
    var e := s + "...";
    forall i | 0 <= i < |e|
      ensures !Mark(e[i]) && e[i] != '\n'
    {
      if i < |s| {
        assert e[i] == s[i];
        assert s[i] in s;
      } else {
        assert e[i] == '.';
      }
    }
    assert e[|e| - 3..] == "...";
  }

  /** The excerpt's text before the `...`: at most 150 characters, without line feeds or marks. */
  lemma ExcerptText(content: string)
    ensures var s := Strip(ReplaceAll(Prefix(DropMarks(content), ExcerptLength), "\n", " "));
      |s| <= ExcerptLength && forall c :: c in s ==> c != '\n' && !Mark(c)
  {
    var one := ReplaceAll(Prefix(DropMarks(content), ExcerptLength), "\n", " ");
    OneLineUnmarked(content);
    StripChars(one);
  }

  /** Before stripping, the cut text is at most 150 characters without line feeds or marks. */
  lemma OneLineUnmarked(content: string)
    ensures var one := ReplaceAll(Prefix(DropMarks(content), ExcerptLength), "\n", " ");
      |one| <= ExcerptLength && forall c :: c in one ==> c != '\n' && !Mark(c)
  {
    var d := DropMarks(content);
    var cut := Prefix(d, ExcerptLength);
    assert forall i :: 0 <= i < |cut| ==> cut[i] == d[i];
    ReplaceChar(cut, '\n', ' ');
  }

  /** A short stripped one-line text without marks is its own excerpt, followed by `...`. */
  lemma ExcerptOfPlain(content: string)
    requires |content| <= ExcerptLength && Stripped(content) && '\n' !in content
    requires forall i :: 0 <= i < |content| ==> !Mark(content[i])
    ensures Excerpt(content) == content + "..."
  {
    DropMarksPlain(content);
    NoCharNoMatch(content, '\n');
    ReplaceAbsent(content, "\n", " ");
    StripStripped(content);
  }

  /** The lines of the front matter: the fields in order, the closing `---` and a blank line. */
  function FrontmatterFields(title: string, excerpt: string, date: string, author: string): seq<string> {
    ["---", "title: " + title, "excerpt: " + excerpt, "date: " + date, "author: " + author, "published: true", "---", "", ""]
  }

  /** The front matter block: its lines joined by line feeds, so it ends in a blank line. */
  function Frontmatter(title: string, excerpt: string, date: string, author: string): string {
    Join(FrontmatterFields(title, excerpt, date, author), "\n")
  }

  /** With one-line fields, splitting the front matter at line feeds gives back its lines. */
  lemma FrontmatterLines(title: string, excerpt: string, date: string, author: string)
    requires '\n' !in title && '\n' !in excerpt && '\n' !in date && '\n' !in author
    ensures Split(Frontmatter(title, excerpt, date, author), '\n') == FrontmatterFields(title, excerpt, date, author)
  {
    var parts := FrontmatterFields(title, excerpt, date, author);
    forall i | 0 <= i < |parts|
      ensures '\n' !in parts[i]
    {
    }
    JoinSplit(parts, '\n');
  }

  /** What `publish_to_blog` writes: the file's path and its text. */
  datatype Post = Post(path: string, text: string)

  /**
   * `publish_to_blog`: missing posts folder is an error before anything is
   * written; otherwise the post is `<slug>.md` in the folder, holding the
   * front matter and the content. `today` and `now` are the two clock
   * readings, for the date and for the fallback slug.
   */
  function PublishToBlog(title: string, content: string, author: string, customSlug: Option<string>,
                         dirExists: bool, today: DateTime, now: DateTime): (r: Result<Post, string>)
    ensures r.Err? <==> !dirExists
  {
    if !dirExists then Err("Blog directory not found: " + BlogPostsDir)
    else
      var filename := Slug(title, customSlug, now) + ".md";
      Ok(Post(PathJoin(BlogPostsDir, filename),
              Frontmatter(title, Excerpt(content), DateText(today), author) + content))
  }

  lemma PostsDirEnd()
    ensures |BlogPostsDir| == 31 && BlogPostsDir[30] == 's'
  {
  }

  /**
   * A published post lies directly in the posts folder under its slug, and
   * its text is the front matter followed by the content unchanged.
   */
  lemma PublishedPost(title: string, content: string, author: string, customSlug: Option<string>,
                      today: DateTime, now: DateTime)
    requires ValidTime(now)
    ensures var r := PublishToBlog(title, content, author, customSlug, true, today, now);
      var fm := Frontmatter(title, Excerpt(content), DateText(today), author);
      r.Ok? && StartsWith(r.value.path, BlogPostsDir)
      && Basename(r.value.path) == Slug(title, customSlug, now) + ".md"
      && StartsWith(r.value.text, fm) && r.value.text[|fm|..] == content
  {
    var filename := Slug(title, customSlug, now) + ".md";
    SlugNoSeparator(title, customSlug, now);
    assert filename[|filename| - 3] == '.';
    JoinUnder(BlogPostsDir, filename);
    BasenameOfJoin(BlogPostsDir, filename);
    var fm := Frontmatter(title, Excerpt(content), DateText(today), author);
    assert (fm + content)[..|fm|] == fm;
  }

  /**
   * Two posts go to the same file exactly when their slugs agree, so a
   * later post with an earlier post's slug overwrites it.
   */
  lemma PostsCollide(title1: string, content1: string, author1: string, customSlug1: Option<string>,
                     today1: DateTime, now1: DateTime,
                     title2: string, content2: string, author2: string, customSlug2: Option<string>,
                     today2: DateTime, now2: DateTime)
    requires ValidTime(now1) && ValidTime(now2)
    ensures var r1 := PublishToBlog(title1, content1, author1, customSlug1, true, today1, now1);
      var r2 := PublishToBlog(title2, content2, author2, customSlug2, true, today2, now2);
      r1.Ok? && r2.Ok?
      && (r1.value.path == r2.value.path <==> Slug(title1, customSlug1, now1) == Slug(title2, customSlug2, now2))
  {
    var r1 := PublishToBlog(title1, content1, author1, customSlug1, true, today1, now1);
    var r2 := PublishToBlog(title2, content2, author2, customSlug2, true, today2, now2);
    PublishedPost(title1, content1, author1, customSlug1, today1, now1);
    PublishedPost(title2, content2, author2, customSlug2, today2, now2);
    var f1, f2 := Slug(title1, customSlug1, now1) + ".md", Slug(title2, customSlug2, now2) + ".md";
    if r1.value.path == r2.value.path {
      assert f1 == f2;
      assert f1[..|f1| - 3] == f2[..|f2| - 3];
    }
  }
}
