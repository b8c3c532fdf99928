/**
 * app.py's `export_html_preview`: the rewritten Markdown lines become one HTML
 * page under a fixed head, an `<img>` for every image embed and a `<p>` for
 * every other non-blank line. The cache-busting clock reading is a parameter;
 * the file write is left to the caller.
 */
module Preview {
  import opened Wrappers
  import opened Strings
  import opened Paths
  import opened Markup
  import opened Walker

  const BoldOpen: string := "<span class=\"bold-text\">"
  const BoldClose: string := "</span>"
  const PageEnd: string := "</div></body></html>"

  /** The page head: charset, the article title, the inline style sheet, and the opening container. */
  function PageHead(title: string): string {
    "<!DOCTYPE html>\n" + "<html>\n" + "<head>\n" + "    <meta charset='utf-8'>\n"
    + "    <title>" + title + "</title>\n"
    + "    <style>\n"
    + "        body { font-family: 'PingFang SC', 'Microsoft YaHei', sans-serif; background: #f5f5f5; }\n"
    + "        .container { max-width: 600px; margin: 0 auto; padding: 20px; background: white; }\n"
    + "        p { line-height: 1.8; color: #333; margin-bottom: 20px; }\n"
    + "        .bold-text { color: #E6C35C; font-weight: bold; }\n"
    + "        img { width: 100%; margin: 20px 0; display: block; }\n"
    + "    </style>\n"
    + "</head>\n"
    + "<body>\n"
    + "<div class='container'>\n"
  }

  /** An image with the page's cache-busting query. */
  function ImgTag(path: string, cb: nat): string {
    "<img src=\"" + path + "?t=" + NatToString(cb) + "\" alt=\"图片\" />"
  }

  /** What one entry of `md_lines` contributes to the page, if anything. */
  function Fragment(raw: string, cb: nat): Option<string> {
    var line := Strip(raw);
    if line == [] then None
    else if StartsWith(line, "![]") then
      match ParenGroup(line)
      case Some(p) => Some(ImgTag(p, cb))
      case None => None
    else Some("<p>" + BoldSub(line, BoldOpen, BoldClose) + "</p>")
  }

  /** `Fragment` as a list of zero or one strings. */
  function FragmentList(raw: string, cb: nat): (r: seq<string>)
    ensures |r| <= 1
  {
    match Fragment(raw, cb)
    case Some(f) => [f]
    case None => []
  }

  /** The fragments of all lines, in order; at most one per line. */
  function Fragments(lines: seq<string>, cb: nat): (r: seq<string>)
    ensures |r| <= |lines|
    decreases |lines|
  {
    if lines == [] then [] else Fragments(lines[..|lines| - 1], cb) + FragmentList(lines[|lines| - 1], cb)
  }

  lemma FragmentsSnoc(lines: seq<string>, i: nat, cb: nat)
    requires i < |lines|
    ensures Fragments(lines[..i + 1], cb) == Fragments(lines[..i], cb) + FragmentList(lines[i], cb)
  {
    var pre := lines[..i + 1];
    assert pre[..|pre| - 1] == lines[..i];
    assert pre[|pre| - 1] == lines[i];
  }

  /** One pass of the loop: the strings appended for the line `raw`. */
  method LineFragment(raw: string, cb: nat) returns (added: seq<string>)
    ensures added == FragmentList(raw, cb)
  {
    added := [];
    var line := Strip(raw);
    if line != [] {
      if StartsWith(line, "![]") {
        var m := ParenGroup(line);
        if m.Some? {
          added := [ImgTag(m.value, cb)];
        }
      } else {
        added := ["<p>" + BoldSub(line, BoldOpen, BoldClose) + "</p>"];
      }
    }
  }

  /** The loop of `export_html_preview`: the fragments of `md_lines`, in order. */
  method CollectFragments(mdLines: seq<string>, cb: nat) returns (body: seq<string>)
    ensures body == Fragments(mdLines, cb)
  {
    body := [];
    var i := 0;
    while i < |mdLines|
      invariant 0 <= i <= |mdLines|
      invariant body == Fragments(mdLines[..i], cb)
    {
      var added := LineFragment(mdLines[i], cb);
      FragmentsSnoc(mdLines, i, cb);
      body := body + added;
      i := i + 1;
    }
    assert mdLines[..i] == mdLines;
  }

  /** Where the preview is written: `PREVIEW_<folder>.html` in the output folder. */
  method PreviewFile(outputDir: string, folderName: string) returns (path: string)
    ensures path == PathJoin(outputDir, "PREVIEW_" + folderName + ".html")
    ensures StartsWith(path, outputDir)
    ensures '/' !in folderName ==> Basename(path) == "PREVIEW_" + folderName + ".html"
  {
    var name := "PREVIEW_" + folderName + ".html";
    path := PathJoin(outputDir, name);
    JoinUnder(outputDir, name);
    if '/' !in folderName {
      assert '/' !in "PREVIEW_" && '/' !in ".html";
      BasenameOfJoin(outputDir, name);
    }
  }

  /**
   * `export_html_preview`: the page text, head, fragments and closing tags
   * joined with line feeds, and the path it is written to.
   */
  method ExportPreview(mdLines: seq<string>, outputDir: string, folderName: string, mainTitle: string, cb: nat)
    returns (path: string, page: string)
    ensures path == PathJoin(outputDir, "PREVIEW_" + folderName + ".html")
    ensures page == Join([PageHead(mainTitle)] + Fragments(mdLines, cb) + [PageEnd], "\n")
  {
    var body := CollectFragments(mdLines, cb);
    var html := [PageHead(mainTitle)] + body + [PageEnd];
    path := PreviewFile(outputDir, folderName);
    page := Join(html, "\n");
  }

  /** The page of a concatenation is the concatenation of the pages. */
  lemma {:induction false} FragmentsAppend(a: seq<string>, b: seq<string>, cb: nat)
    ensures Fragments(a + b, cb) == Fragments(a, cb) + Fragments(b, cb)
    decreases |b|
  {
    if b == [] {
      assert a + b == a;
    } else {
      var n := |b| - 1;
      FragmentsAppend(a, b[..n], cb);
      LastOfAppend(a, b);
      FragmentsLast(a + b, cb);
      FragmentsLast(b, cb);
      AppendAssoc(Fragments(a, cb), Fragments(b[..n], cb), FragmentList(b[n], cb));
    }
  }

  lemma AppendAssoc(x: seq<string>, y: seq<string>, z: seq<string>)
    ensures (x + y) + z == x + (y + z)
  {
  }

  lemma LastOfAppend(a: seq<string>, b: seq<string>)
    requires b != []
    ensures (a + b)[..|a + b| - 1] == a + b[..|b| - 1] && (a + b)[|a + b| - 1] == b[|b| - 1]
  {
  }

  lemma FragmentsLast(s: seq<string>, cb: nat)
    requires s != []
    ensures Fragments(s, cb) == Fragments(s[..|s| - 1], cb) + FragmentList(s[|s| - 1], cb)
  {
  }

  /** Blank lines add nothing to the page. */
  lemma BlankLineSkipped(lines: seq<string>, raw: string, cb: nat)
    requires IsBlank(raw)
    ensures Fragments(lines + [raw], cb) == Fragments(lines, cb)
  {
    assert (lines + [raw])[..|lines|] == lines;
  }

  /** A stripped non-blank line that is not an image line becomes a paragraph with its bold runs replaced. */
  lemma TextFragment(line: string, cb: nat)
    requires line != [] && Stripped(line) && !StartsWith(line, "![]")
    ensures Fragment(line, cb) == Some("<p>" + BoldSub(line, BoldOpen, BoldClose) + "</p>")
  {
    StripStripped(line);
  }

  /** A stripped image line becomes the `<img>` of its first parenthesised path, or nothing. */
  lemma ImageFragment(line: string, cb: nat)
    requires line != [] && Stripped(line) && StartsWith(line, "![]")
    ensures Fragment(line, cb) == (match ParenGroup(line) case Some(p) => Some(ImgTag(p, cb)) case None => None)
  {
    StripStripped(line);
  }

  /** A stripped text line without `**` becomes one paragraph holding that line. */
  lemma PlainTextParagraph(line: string, cb: nat)
    requires line != [] && Stripped(line)
    requires !StartsWith(line, "![]") && !Contains(line, "**")
    ensures Fragment(line, cb) == Some("<p>" + line + "</p>")
  {
    TextFragment(line, cb);
    BoldSubPlain(line, BoldOpen, BoldClose);
  }

  /** A line that is one bold run becomes a paragraph holding one bold span. */
  lemma BoldParagraph(x: string, cb: nat)
    requires x != [] && '*' !in x && '\n' !in x
    ensures Fragment("**" + x + "**", cb) == Some("<p>" + (BoldOpen + x + BoldClose) + "</p>")
  {
    BoldLineIsText(x);
    BoldLineSub(x);
    ParagraphOf("**" + x + "**", BoldOpen + x + BoldClose, cb);
  }

  lemma ParagraphOf(line: string, b: string, cb: nat)
    requires line != [] && Stripped(line) && !StartsWith(line, "![]")
    requires BoldSub(line, BoldOpen, BoldClose) == b
    ensures Fragment(line, cb) == Some("<p>" + b + "</p>")
  {
    TextFragment(line, cb);
  }

  /** A bold run is a stripped text line, not an image line. */
  lemma BoldLineIsText(x: string)
    ensures var line := "**" + x + "**"; line != [] && Stripped(line) && !StartsWith(line, "![]")
  {
    var line := "**" + x + "**";
    assert line[0] == '*' && line[|line| - 1] == '*';
    assert line[..3][0] == '*';
  }

  /** A bold run is replaced by one span around its text. */
  lemma BoldLineSub(x: string)
    requires x != [] && '*' !in x && '\n' !in x
    ensures BoldSub("**" + x + "**", BoldOpen, BoldClose) == BoldOpen + x + BoldClose
  {
    var line := "**" + x + "**";
    assert line + [] == line;
    BoldSubWrap(x, [], BoldOpen, BoldClose);
    assert BoldSub([], BoldOpen, BoldClose) == [];
    assert BoldOpen + x + BoldClose + [] == BoldOpen + x + BoldClose;
  }

  /** Only the stripped line matters. */
  lemma FragmentOfStrip(raw: string, cb: nat)
    ensures Fragment(raw, cb) == Fragment(Strip(raw), cb)
  {
    StripIdempotent(raw);
    FragmentSameStrip(raw, Strip(raw), cb);
  }

  lemma FragmentSameStrip(a: string, b: string, cb: nat)
    requires Strip(a) == Strip(b)
    ensures Fragment(a, cb) == Fragment(b, cb)
  {
  }

  /** An embed line `![](p)` becomes one `<img>` of `p`. */
  lemma EmbedLineFragment(p: string, cb: nat)
    requires ')' !in p && '\n' !in p
    ensures Fragment("![](" + p + ")", cb) == Some(ImgTag(p, cb))
  {
    var x := "![](" + p + ")";
    assert x[0] == '!' && x[|x| - 1] == ')';
    assert x[..3] == "![]";
    ImageFragment(x, cb);
    assert x + [] == x;
    ParenGroupOfEmbed(p, []);
  }

  /** A line that strips to an embed line `![](p)` gives the one `<img>` of `p`. */
  lemma EmbedTextFragment(t: string, p: string, cb: nat)
    requires ')' !in p && '\n' !in p && Strip(t) == "![](" + p + ")"
    ensures Fragment(t, cb) == Some(ImgTag(p, cb))
  {
    FragmentOfStrip(t, cb);
    EmbedLineFragment(p, cb);
  }

  /**
   * Every embed the walker writes reaches the preview as one `<img>` of its
   * `assets/` path, tagged with the page's cache buster.
   */
  lemma EmbedPreviewed(a: Asset, cb: nat)
    requires EmbedSafe(a)
    ensures Fragment(RenderItem(Embed(a)), cb) == Some(ImgTag("assets/" + AssetName(a), cb))
  {
    var t, p := RenderItem(Embed(a)), "assets/" + AssetName(a);
    assert ')' !in p && '\n' !in p by {
      AssetNameSafe(a);
    }
    assert Strip(t) == "![](" + p + ")" by {
      EmbedTextStripped(a);
    }
    EmbedTextFragment(t, p, cb);
  }

  /** Every asset a walk embeds is safe to embed and reaches the preview as the `<img>` of its `assets/` path. */
  lemma WalkEmbedsPreviewed(lines: seq<string>, clock: nat -> nat, mins: nat, inputDir: string, files: set<string>, cb: nat)
    ensures var e := Embedded(Walk(lines, clock, mins, inputDir, files).items);
      forall k :: 0 <= k < |e| ==> EmbedSafe(e[k]) && Fragment(RenderItem(Embed(e[k])), cb) == Some(ImgTag("assets/" + AssetName(e[k]), cb))
  {
    var e := Embedded(Walk(lines, clock, mins, inputDir, files).items);
    WalkEmbedsSafe(lines, clock, mins, inputDir, files);
    forall k | 0 <= k < |e|
      ensures EmbedSafe(e[k]) && Fragment(RenderItem(Embed(e[k])), cb) == Some(ImgTag("assets/" + AssetName(e[k]), cb))
    {
      EmbedPreviewed(e[k], cb);
    }
  }
}
