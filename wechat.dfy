/**
 * publisher.py's `WeChatPublisher`: the access-token guard, the image upload
 * guard, the conversion of the final Markdown into the WeChat article HTML
 * (`md_to_wechat_html`), and the routing of the asset files in
 * `publish_draft`. Every HTTP request is an oracle parameter: what the API
 * answers is given, not computed.
 */
module WeChat {
  import opened Wrappers
  import opened Strings
  import opened Paths
  import opened Markup
  import opened Walker

  /** The four image styles of `STYLE_CONFIG`. */
  datatype ImgStyle = CardStyle | HeaderStyle | FooterStyle | HeadingStyle

  /** What one Markdown line contributes before the lead paragraph is chosen: an image, or cleaned text. */
  datatype Piece = Picture(url: string, style: ImgStyle) | Prose(text: string)

  /** What one Markdown line contributes to the article. */
  datatype Block = Img(url: string, style: ImgStyle) | Lead(text: string) | Para(text: string)

  /**
   * The fixed markup of the article: the `STYLE_CONFIG` entries the
   * conversion reads, and the separator, lead-section tag and gold span it
   * writes inline.
   */
  datatype Styles = Styles(
    body: string, p: string,
    imgCard: string, imgHeader: string, imgHeading: string, imgFooter: string,
    separator: string, leadOpen: string, boldOpen: string)

  /** The article as `publish_draft` posts it to the draft endpoint. */
  datatype Article = Article(title: string, author: string, digest: string, content: string, thumbMediaId: string, needOpenComment: int)

  /** `get_access_token`: no request without both credentials; otherwise the token the API answers with, if any. */
  function AccessToken(appId: string, appSecret: string, reply: Option<string>): (r: Option<string>)
    ensures appId == [] || appSecret == [] ==> r == None
    ensures appId != [] && appSecret != [] ==> r == reply
  {
    if appId == [] || appSecret == [] then None else reply
  }

  /** Python truthiness of an optional string: present and non-empty. */
  predicate Truthy(v: Option<string>) {
    v.Some? && v.value != []
  }

  /** The style of an embedded image: `HEADER` first, then `FOOTER`, then `H_`, else the card style. */
  function StyleFor(path: string): (r: ImgStyle)
    ensures r == HeaderStyle <==> Contains(path, "HEADER")
    ensures r == FooterStyle <==> !Contains(path, "HEADER") && Contains(path, "FOOTER")
    ensures r == HeadingStyle <==> !Contains(path, "HEADER") && !Contains(path, "FOOTER") && Contains(path, "H_")
    ensures r == CardStyle <==> !Contains(path, "HEADER") && !Contains(path, "FOOTER") && !Contains(path, "H_")
  {
    if Contains(path, "HEADER") then HeaderStyle
    else if Contains(path, "FOOTER") then FooterStyle
    else if Contains(path, "H_") then HeadingStyle
    else CardStyle
  }

  /** The text of a non-image line with the heading and quote markers removed, in the source's order. */
  function CleanText(line: string): string {
    ReplaceAll(ReplaceAll(ReplaceAll(line, "# ", []), "## ", []), "> ", [])
  }

  /** What the line `raw` contributes, if anything: only its stripped text matters. */
  function LinePiece(raw: string, assets: map<string, string>): Option<Piece> {
    StrippedPiece(Strip(raw), assets)
  }

  /** What a stripped line contributes. */
  function StrippedPiece(line: string, assets: map<string, string>): Option<Piece> {
    if line == [] then None
    else if StartsWith(line, "![]") then
      match ParenGroup(line)
      case Some(p) =>
        if p in assets && assets[p] != [] then Some(Picture(assets[p], StyleFor(p))) else None
      case None => None
    else
      var clean := CleanText(line);
      if clean == [] then None else Some(Prose(clean))
  }

  function PieceList(raw: string, assets: map<string, string>): (r: seq<Piece>)
    ensures |r| <= 1
  {
    match LinePiece(raw, assets)
    case Some(p) => [p]
    case None => []
  }

  /** The pieces of all lines, in order. */
  function Pieces(lines: seq<string>, assets: map<string, string>): (r: seq<Piece>)
    ensures |r| <= |lines|
    decreases |lines|
  {
    if lines == [] then [] else Pieces(lines[..|lines| - 1], assets) + PieceList(lines[|lines| - 1], assets)
  }

  predicate NoProse(ps: seq<Piece>) {
    forall k :: 0 <= k < |ps| ==> !ps[k].Prose?
  }

  /** A piece in place: a paragraph is the lead exactly when no paragraph came before it. */
  function Place(p: Piece, first: bool): Block {
    match p
    case Picture(u, s) => Img(u, s)
    case Prose(h) => if first then Lead(h) else Para(h)
  }

  /** The blocks of the article, built piece by piece. */
  function Layout(ps: seq<Piece>): (r: seq<Block>)
    ensures |r| == |ps|
    decreases |ps|
  {
    if ps == [] then [] else Layout(ps[..|ps| - 1]) + [Place(ps[|ps| - 1], NoProse(ps[..|ps| - 1]))]
  }

  /** Every piece is placed after the pieces before it: a text piece is the lead exactly when no text came earlier. */
  lemma {:induction false} LayoutPlaces(ps: seq<Piece>)
    ensures forall k :: 0 <= k < |ps| ==> Layout(ps)[k] == Place(ps[k], NoProse(ps[..k]))
    decreases |ps|
  {
    if ps != [] {
      var n := |ps| - 1;
      var pre := ps[..n];
      LayoutPlaces(pre);
      var l, lp := Layout(ps), Layout(pre);
      assert l == lp + [Place(ps[n], NoProse(pre))];
      forall k | 0 <= k < |ps|
        ensures l[k] == Place(ps[k], NoProse(ps[..k]))
      {
        if k < n {
          assert pre[k] == ps[k] && pre[..k] == ps[..k];
          assert l[k] == lp[k];
        }
      }
    }
  }

  function LeadCount(bs: seq<Block>): nat
    decreases |bs|
  {
    if bs == [] then 0 else LeadCount(bs[..|bs| - 1]) + (if bs[|bs| - 1].Lead? then 1 else 0)
  }

  /** The article has one lead paragraph when it has any text paragraph, and none otherwise. */
  lemma {:induction false} LeadOnce(ps: seq<Piece>)
    ensures LeadCount(Layout(ps)) == if NoProse(ps) then 0 else 1
    decreases |ps|
  {
    if ps != [] {
      var n := |ps| - 1;
      var pre := ps[..n];
      LeadOnce(pre);
      var b := Place(ps[n], NoProse(pre));
      var l := Layout(ps);
      assert l == Layout(pre) + [b];
      assert l[..n] == Layout(pre) && l[n] == b;
      assert pre + [ps[n]] == ps;
      NoProseSnoc(pre, [ps[n]]);
    }
  }

  /** `STYLE_CONFIG` and the inline markup of `md_to_wechat_html`, as the source writes them. */
  const StyleConfig: Styles :=
    Styles(
      "\n"
      + "        font-family: 'Optima-Regular', 'Optima', 'PingFang SC', 'HarmonyOS Sans', 'Noto Sans SC', 'Microsoft YaHei', sans-serif; \n"
      + "        text-align: justify; \n"
      + "        line-height: 1.8; \n"
      + "        color: #333; \n"
      + "        padding: 20px 8px;\n"
      + "        letter-spacing: 0.034em;\n"
      + "    ",
      "margin-bottom: 32px; font-size: 16px;",
      "display: block; width: 100% !important; margin: 30px 0; border-radius: 12px; box-shadow: 0 4px 12px rgba(0,0,0,0.08);",
      "display: block; width: 100% !important; margin: 0 0 5px 0; pointer-events: none;",
      "display: block; width: 100% !important; margin: 10px 0; pointer-events: none;",
      "display: block; width: 100% !important; margin: 50px 0 0 0; pointer-events: none;",
      "\n"
      + "                        <section style=\"margin: 15px auto 20px auto; text-align: center; line-height: 1;\">\n"
      + "                            <span style=\"display: inline-block; width: 40px; border-top: 1px solid #E6C35C; vertical-align: middle;\"></span>\n"
      + "                            <span style=\"display: inline-block; width: 6px; height: 6px; background-color: #E6C35C; border-radius: 50%; vertical-align: middle; margin: 0 8px;\"></span>\n"
      + "                            <span style=\"display: inline-block; width: 40px; border-top: 1px solid #E6C35C; vertical-align: middle;\"></span>\n"
      + "                        </section>\n"
      + "                        ",
      "<section style=\"font-size: 15px; color: #666; line-height: 1.7; text-align: justify; padding: 20px 16px 20px 24px; border-left: 4px solid #E6C35C; background-color: #f9f9f9; margin-bottom: 50px;\">",
      "<span style=\"color: #E6C35C; font-weight: bold;\">")


  function StyleText(s: ImgStyle, st: Styles): string {
    match s
    case CardStyle => st.imgCard
    case HeaderStyle => st.imgHeader
    case HeadingStyle => st.imgHeading
    case FooterStyle => st.imgFooter
  }

  /** `process_bold_text`. */
  function Bold(text: string, st: Styles): string {
    BoldSub(text, st.boldOpen, "</span>")
  }

  function BlockHtml(b: Block, st: Styles): string {
    match b
    case Img(u, s) => "<img src=\"" + u + "\" style=\"" + StyleText(s, st) + "\" />"
    case Lead(t) => st.separator + st.leadOpen + Bold(t, st) + "</section>"
    case Para(t) => "<p style=\"" + st.p + "\">" + Bold(t, st) + "</p>"
  }

  function BlocksHtml(bs: seq<Block>, st: Styles): string
    decreases |bs|
  {
    if bs == [] then [] else BlocksHtml(bs[..|bs| - 1], st) + BlockHtml(bs[|bs| - 1], st)
  }

  /** `md_to_wechat_html` as a function of the Markdown text, the uploaded-URL map and the markup. */
  function ArticleHtml(md: string, assets: map<string, string>, st: Styles): string {
    "<div style=\"" + st.body + "\">" + BlocksHtml(Layout(Pieces(SplitLines(md), assets)), st) + "</div>"
  }

  lemma PiecesSnoc(lines: seq<string>, i: nat, assets: map<string, string>)
    requires i < |lines|
    ensures Pieces(lines[..i + 1], assets) == Pieces(lines[..i], assets) + PieceList(lines[i], assets)
  {
    var pre := lines[..i + 1];
    assert pre[..|pre| - 1] == lines[..i];
    assert pre[|pre| - 1] == lines[i];
  }

  lemma LayoutSnoc(ps: seq<Piece>, q: seq<Piece>)
    requires |q| <= 1
    ensures Layout(ps + q) == Layout(ps) + (if q == [] then [] else [Place(q[0], NoProse(ps))])
  {
    if q == [] {
      assert ps + q == ps;
    } else {
      assert (ps + q)[..|ps|] == ps;
    }
  }

  lemma BlocksHtmlSnoc(bs: seq<Block>, c: seq<Block>, st: Styles)
    requires |c| <= 1
    ensures BlocksHtml(bs + c, st) == BlocksHtml(bs, st) + (if c == [] then [] else BlockHtml(c[0], st))
  {
    if c == [] {
      assert bs + c == bs;
    } else {
      assert (bs + c)[..|bs|] == bs;
    }
  }

  lemma NoProseSnoc(ps: seq<Piece>, q: seq<Piece>)
    requires |q| <= 1
    ensures NoProse(ps + q) == (NoProse(ps) && (q == [] || !q[0].Prose?))
  {
    if !NoProse(ps) {
      var k :| 0 <= k < |ps| && ps[k].Prose?;
      assert (ps + q)[k] == ps[k];
    }
    if q != [] {
      assert (ps + q)[|ps|] == q[0];
    }
  }

  /** The state of the conversion loop after `lines`: the HTML so far, and whether the lead is still to come. */
  predicate Converted(lines: seq<string>, assets: map<string, string>, st: Styles, body: string, first: bool) {
    body == BlocksHtml(Layout(Pieces(lines, assets)), st) && first == NoProse(Pieces(lines, assets))
  }

  /** One line's step of the conversion, in terms of the whole-document functions. */
  lemma ConvertStep(lines: seq<string>, i: nat, assets: map<string, string>, st: Styles)
    requires i < |lines|
    ensures var lp := LinePiece(lines[i], assets);
      var first := NoProse(Pieces(lines[..i], assets));
      && BlocksHtml(Layout(Pieces(lines[..i + 1], assets)), st)
         == BlocksHtml(Layout(Pieces(lines[..i], assets)), st) + (if lp.Some? then BlockHtml(Place(lp.value, first), st) else [])
      && NoProse(Pieces(lines[..i + 1], assets)) == (first && !(lp.Some? && lp.value.Prose?))
  {
    var ps, q := Pieces(lines[..i], assets), PieceList(lines[i], assets);
    PiecesSnoc(lines, i, assets);
    LayoutSnoc(ps, q);
    var c := if q == [] then [] else [Place(q[0], NoProse(ps))];
    BlocksHtmlSnoc(Layout(ps), c, st);
    NoProseSnoc(ps, q);
  }

  /** A stripped image line yields an image exactly when its path has a non-empty URL in the map. */
  lemma ImageLine(line: string, assets: map<string, string>)
    requires line != [] && Stripped(line) && StartsWith(line, "![]")
    ensures LinePiece(line, assets).Some? <==>
      ParenGroup(line).Some? && ParenGroup(line).value in assets && assets[ParenGroup(line).value] != []
    ensures LinePiece(line, assets).Some? ==>
      LinePiece(line, assets) == Some(Picture(assets[ParenGroup(line).value], StyleFor(ParenGroup(line).value)))
  {
    StripStripped(line);
  }

  /** A stripped text line yields its cleaned text, or nothing when cleaning empties it. */
  lemma TextLine(line: string, assets: map<string, string>)
    requires line != [] && Stripped(line) && !StartsWith(line, "![]")
    ensures LinePiece(line, assets) ==
      if CleanText(line) == [] then None else Some(Prose(CleanText(line)))
  {
    StripStripped(line);
  }

  /** Blank lines contribute nothing. */
  lemma BlankLineDropped(raw: string, assets: map<string, string>)
    requires IsBlank(raw)
    ensures LinePiece(raw, assets) == None
  {
  }

  lemma NoMarkers(t: string)
    requires '#' !in t && '>' !in t
    ensures !Contains(t, "# ") && !Contains(t, "## ") && !Contains(t, "> ")
  {
    if Contains(t, "# ") {
      ContainsHead(t, "# ");
    }
    if Contains(t, "## ") {
      ContainsHead(t, "## ");
    }
    if Contains(t, "> ") {
      ContainsHead(t, "> ");
    }
  }

  /** Text without `#` or `>` is left as it is. */
  lemma CleanPlain(t: string)
    requires '#' !in t && '>' !in t
    ensures CleanText(t) == t
  {
    NoMarkers(t);
    ReplaceAbsent(t, "# ", []);
    ReplaceAbsent(t, "## ", []);
    ReplaceAbsent(t, "> ", []);
  }

  /** `# T` and `> T` lose their marker. */
  lemma CleanHeadingOne(t: string)
    requires '#' !in t && '>' !in t
    ensures CleanText("# " + t) == t
    ensures CleanText("> " + t) == t
  {
    NoMarkers(t);
    ReplaceAtMatch("# ", t, []);
    ReplaceAbsent(t, "# ", []);
    assert [] + t == t;
    ReplaceAbsent(t, "## ", []);
    ReplaceAbsent(t, "> ", []);
    ReplaceAfterPrefix("> ", t, "# ", []);
    ReplaceAfterPrefix("> ", t, "## ", []);
    ReplaceAtMatch("> ", t, []);
  }

  /**
   * `## T` keeps one `#`: the `# ` inside `## ` is removed first, and what is
   * left no longer holds `## `.
   */
  lemma CleanHeadingTwo(t: string)
    requires '#' !in t && '>' !in t
    ensures CleanText("## " + t) == "#" + t
  {
    NoMarkers(t);
    HashSpaceInside(t);
    HashLineKept(t);
  }

  /** Removing `# ` from `## t` leaves `#t`: the match starts at the second character. */
  lemma HashSpaceInside(t: string)
    requires !Contains(t, "# ")
    ensures ReplaceAll("## " + t, "# ", []) == "#" + t
  {
    var s := "## " + t;
    assert !StartsWith(s, "# ") by {
      assert s[..2][1] == '#' != "# "[1];
    }
    var rest := ReplaceAll(s[1..], "# ", []);
    assert ReplaceAll(s, "# ", []) == [s[0]] + rest;
    assert s[1..] == "# " + t;
    ReplaceAtMatch("# ", t, []);
    ReplaceAbsent(t, "# ", []);
    assert rest == t;
  }

  /** `#t` holds neither `## ` nor `> ` when `t` holds no marker character. */
  lemma HashLineKept(t: string)
    requires '#' !in t && '>' !in t
    ensures ReplaceAll(ReplaceAll("#" + t, "## ", []), "> ", []) == "#" + t
  {
    var h := "#" + t;
    NoMarkers(t);
    assert !StartsWith(h, "## ") by {
      if |h| >= 3 {
        assert h[..3][1] == t[0];
      }
    }
    assert h[1..] == t;
    ReplaceAbsent(h, "## ", []);
    assert !StartsWith(h, "> ") by {
      assert h[0] == '#';
    }
    ReplaceAbsent(h, "> ", []);
  }

  /** A line that strips to an embed line `![](p)` whose path has a URL yields that URL's image. */
  lemma EmbedTextPiece(t: string, p: string, assets: map<string, string>)
    requires ')' !in p && '\n' !in p && p in assets && assets[p] != [] && Strip(t) == "![](" + p + ")"
    ensures LinePiece(t, assets) == Some(Picture(assets[p], StyleFor(p)))
  {
    EmbedLinePiece(p, assets);
  }

  /** Every embed the walker writes reaches the article as one image, provided its upload gave a URL. */
  lemma EmbedPublished(a: Asset, assets: map<string, string>)
    requires EmbedSafe(a)
    requires "assets/" + AssetName(a) in assets && assets["assets/" + AssetName(a)] != []
    ensures var p := "assets/" + AssetName(a);
      LinePiece(RenderItem(Embed(a)), assets) == Some(Picture(assets[p], StyleFor(p)))
  {
    var t, p := RenderItem(Embed(a)), "assets/" + AssetName(a);
    assert ')' !in p && '\n' !in p by {
      AssetNameSafe(a);
    }
    assert Strip(t) == "![](" + p + ")" by {
      EmbedTextStripped(a);
    }
    EmbedTextPiece(t, p, assets);
  }

  /** The embed of `a` reaches the article as one image when its upload gave a URL. */
  predicate Published(a: Asset, assets: map<string, string>)
    requires EmbedSafe(a)
  {
    var p := "assets/" + AssetName(a);
    p in assets && assets[p] != [] ==> LinePiece(RenderItem(Embed(a)), assets) == Some(Picture(assets[p], StyleFor(p)))
  }

  /** Every asset a walk embeds is safe to embed and reaches the article as one image, provided its upload gave a URL. */
  lemma WalkEmbedsPublished(lines: seq<string>, clock: nat -> nat, mins: nat, inputDir: string, files: set<string>,
                            assets: map<string, string>)
    ensures var e := Embedded(Walk(lines, clock, mins, inputDir, files).items);
      forall k :: 0 <= k < |e| ==> EmbedSafe(e[k]) && Published(e[k], assets)
  {
    var e := Embedded(Walk(lines, clock, mins, inputDir, files).items);
    WalkEmbedsSafe(lines, clock, mins, inputDir, files);
    forall k | 0 <= k < |e|
      ensures EmbedSafe(e[k]) && Published(e[k], assets)
    {
      var p := "assets/" + AssetName(e[k]);
      if p in assets && assets[p] != [] {
        EmbedPublished(e[k], assets);
      }
    }
  }

  /** An embed line `![](p)` whose path has a URL yields that URL's image. */
  lemma EmbedLinePiece(p: string, assets: map<string, string>)
    requires ')' !in p && '\n' !in p && p in assets && assets[p] != []
    ensures StrippedPiece("![](" + p + ")", assets) == Some(Picture(assets[p], StyleFor(p)))
  {
    var x := "![](" + p + ")";
    assert x[..3] == "![]";
    assert x + [] == x;
    ParenGroupOfEmbed(p, []);
  }

  /** `publish_draft`'s filter: `.png`, `.jpg` or `.gif`, ignoring case. */
  predicate Eligible(file: string) {
    var f := Lower(file);
    EndsWith(f, ".png") || EndsWith(f, ".jpg") || EndsWith(f, ".gif")
  }

  /** A `.jpeg` file is never uploaded. */
  lemma JpegNotEligible(file: string)
    requires EndsWith(Lower(file), ".jpeg")
    ensures !Eligible(file)
  {
    var f := Lower(file);
    var t := f[|f| - 4..];
    assert t[2] == f[|f| - 5..][3] == 'e';
    assert ".png"[2] != 'e' && ".jpg"[2] != 'e' && ".gif"[2] != 'e';
  }

  /** The key under which an uploaded file's URL is recorded. */
  function LocalPath(file: string): string {
    ReplaceAll(PathJoin("assets", file), "\\", "/")
  }

  /** `upload_image`'s answer: nothing for a missing file, else the API's. */
  function UploadResult(path: string, isThumb: bool, present: set<string>, upload: (string, bool) -> Option<string>): (r: Option<string>)
    ensures path !in present ==> r == None
  {
    if path in present then upload(path, isThumb) else None
  }

  /** The walk's `(root, file)` pairs that are uploaded into the article. */
  predicate Body(entry: (string, string), present: set<string>, upload: (string, bool) -> Option<string>) {
    Eligible(entry.1) && !Contains(entry.1, "COVER")
    && Truthy(UploadResult(PathJoin(entry.0, entry.1), false, present, upload))
  }

  /**
   * The thumbnail media id and the URL map after the walk: the last eligible
   * `COVER` file's upload decides the thumbnail, and every other eligible file
   * whose upload gives a URL is recorded under `assets/<file>`.
   */
  function Route(listing: seq<(string, string)>, present: set<string>, upload: (string, bool) -> Option<string>)
    : (r: (Option<string>, map<string, string>))
    decreases |listing|
  {
    if listing == [] then (None, map[])
    else
      var n := |listing| - 1;
      var prev := Route(listing[..n], present, upload);
      var e := listing[n];
      if !Eligible(e.1) then prev
      else if Contains(e.1, "COVER") then (UploadResult(PathJoin(e.0, e.1), true, present, upload), prev.1)
      else
        var url := UploadResult(PathJoin(e.0, e.1), false, present, upload);
        if Truthy(url) then (prev.0, prev.1[LocalPath(e.1) := url.value]) else prev
  }

  /** The keys an independent reading of the walk expects: one per uploaded body image. */
  function BodyPaths(listing: seq<(string, string)>, present: set<string>, upload: (string, bool) -> Option<string>): set<string> {
    set j | 0 <= j < |listing| && Body(listing[j], present, upload) :: LocalPath(listing[j].1)
  }

  lemma InBodyPaths(listing: seq<(string, string)>, j: nat, present: set<string>, upload: (string, bool) -> Option<string>)
    requires j < |listing| && Body(listing[j], present, upload)
    ensures LocalPath(listing[j].1) in BodyPaths(listing, present, upload)
  {
  }

  /**
   * The URL map has exactly one key per eligible non-`COVER` file whose
   * upload gave a URL, and every recorded URL is non-empty.
   */
  lemma {:induction false} RouteKeys(listing: seq<(string, string)>, present: set<string>, upload: (string, bool) -> Option<string>)
    ensures Route(listing, present, upload).1.Keys == BodyPaths(listing, present, upload)
    ensures forall k :: k in Route(listing, present, upload).1 ==> Route(listing, present, upload).1[k] != []
    decreases |listing|
  {
    if listing != [] {
      var n := |listing| - 1;
      RouteKeys(listing[..n], present, upload);
      BodyPathsSnoc(listing, present, upload);
    }
  }

  /** The last entry adds its own key, if it is a body image, to those of the entries before it. */
  lemma BodyPathsSnoc(listing: seq<(string, string)>, present: set<string>, upload: (string, bool) -> Option<string>)
    requires listing != []
    ensures var n := |listing| - 1;
      BodyPaths(listing, present, upload) == BodyPaths(listing[..n], present, upload)
        + (if Body(listing[n], present, upload) then {LocalPath(listing[n].1)} else {})
  {
    var n := |listing| - 1;
    var pre, e := listing[..n], listing[n];
    var all, before := BodyPaths(listing, present, upload), BodyPaths(pre, present, upload);
    forall x | x in all
      ensures x in before || (Body(e, present, upload) && x == LocalPath(e.1))
    {
      var j :| 0 <= j < |listing| && Body(listing[j], present, upload) && LocalPath(listing[j].1) == x;
      if j < n {
        assert pre[j] == listing[j];
        InBodyPaths(pre, j, present, upload);
      } else {
        assert j == n;
      }
    }
    forall x | x in before
      ensures x in all
    {
      var j :| 0 <= j < n && Body(pre[j], present, upload) && LocalPath(pre[j].1) == x;
      assert listing[j] == pre[j];
      InBodyPaths(listing, j, present, upload);
    }
    if Body(e, present, upload) {
      InBodyPaths(listing, n, present, upload);
    }
  }

  /** An entry the walk uploads as the thumbnail. */
  predicate IsCover(e: (string, string)) {
    Eligible(e.1) && Contains(e.1, "COVER")
  }

  /**
   * Every eligible `COVER` file overwrites the thumbnail, failed uploads
   * included, so the last one decides.
   */
  lemma {:induction false} RouteThumb(listing: seq<(string, string)>, j: nat, present: set<string>, upload: (string, bool) -> Option<string>)
    requires j < |listing| && IsCover(listing[j])
    requires forall m :: j < m < |listing| ==> !IsCover(listing[m])
    ensures Route(listing, present, upload).0 == UploadResult(PathJoin(listing[j].0, listing[j].1), true, present, upload)
    decreases |listing|
  {
    var n := |listing| - 1;
    var pre := listing[..n];
    if j < n {
      assert !IsCover(listing[n]);
      assert Route(listing, present, upload).0 == Route(pre, present, upload).0;
      assert pre[j] == listing[j];
      RouteThumb(pre, j, present, upload);
    }
  }

  /** Without an eligible `COVER` file there is no thumbnail. */
  lemma {:induction false} RouteNoThumb(listing: seq<(string, string)>, present: set<string>, upload: (string, bool) -> Option<string>)
    requires forall m :: 0 <= m < |listing| ==> !IsCover(listing[m])
    ensures Route(listing, present, upload).0 == None
    decreases |listing|
  {
    if listing != [] {
      var n := |listing| - 1;
      var pre := listing[..n];
      assert !IsCover(listing[n]);
      assert Route(listing, present, upload).0 == Route(pre, present, upload).0;
      RouteNoThumb(pre, present, upload);
    }
  }

  /** No body image after entry `j` is recorded under the same key as entry `j`. */
  predicate LastOfKey(listing: seq<(string, string)>, j: nat, present: set<string>, upload: (string, bool) -> Option<string>)
    requires j < |listing|
  {
    forall m :: j < m < |listing| && Body(listing[m], present, upload) ==> LocalPath(listing[m].1) != LocalPath(listing[j].1)
  }

  /** Dropping the last entry keeps an earlier entry the last of its key. */
  lemma LastOfKeyPrefix(listing: seq<(string, string)>, j: nat, present: set<string>, upload: (string, bool) -> Option<string>)
    requires j < |listing| - 1 && LastOfKey(listing, j, present, upload)
    ensures LastOfKey(listing[..|listing| - 1], j, present, upload)
    ensures Body(listing[|listing| - 1], present, upload) ==> LocalPath(listing[|listing| - 1].1) != LocalPath(listing[j].1)
  {
  }

  /** Updating a map at a key other than `k`, or not at all, keeps the entry at `k`. */
  lemma MapKeep(before: map<string, string>, after: map<string, string>, k: string, update: bool, k2: string, v2: string)
    requires after == (if update then before[k2 := v2] else before)
    requires update ==> k2 != k
    requires k in before
    ensures k in after && after[k] == before[k]
  {
  }

  /** The last entry of the listing, when it is a body image, is recorded under its own key. */
  lemma RouteUrlsLast(listing: seq<(string, string)>, present: set<string>, upload: (string, bool) -> Option<string>)
    requires listing != [] && Body(listing[|listing| - 1], present, upload)
    ensures var e, urls := listing[|listing| - 1], Route(listing, present, upload).1;
      LocalPath(e.1) in urls
      && urls[LocalPath(e.1)] == UploadResult(PathJoin(e.0, e.1), false, present, upload).value
  {
    RouteMapStep(listing, present, upload);
  }

  /**
   * Each key of the URL map holds the URL of the last uploaded body image
   * recorded under that key: a later file of the same name replaces it, a
   * failed upload does not.
   */
  lemma {:induction false} RouteUrls(listing: seq<(string, string)>, j: nat, present: set<string>, upload: (string, bool) -> Option<string>)
    requires j < |listing| && Body(listing[j], present, upload) && LastOfKey(listing, j, present, upload)
    ensures var urls := Route(listing, present, upload).1;
      LocalPath(listing[j].1) in urls
      && urls[LocalPath(listing[j].1)] == UploadResult(PathJoin(listing[j].0, listing[j].1), false, present, upload).value
    decreases |listing|
  {
    var n := |listing| - 1;
    if j == n {
      RouteUrlsLast(listing, present, upload);
    } else {
      var pre, e := listing[..n], listing[n];
      var k := LocalPath(listing[j].1);
      var before, after := Route(pre, present, upload).1, Route(listing, present, upload).1;
      var update, k2 := Body(e, present, upload), LocalPath(e.1);
      var v2 := if update then UploadResult(PathJoin(e.0, e.1), false, present, upload).value else [];
      assert after == if update then before[k2 := v2] else before by {
        RouteMapStep(listing, present, upload);
      }
      assert update ==> k2 != k by {
        LastOfKeyPrefix(listing, j, present, upload);
      }
      assert k in before && before[k] == UploadResult(PathJoin(listing[j].0, listing[j].1), false, present, upload).value by {
        LastOfKeyPrefix(listing, j, present, upload);
        assert pre[j] == listing[j];
        RouteUrls(pre, j, present, upload);
      }
      MapKeep(before, after, k, update, k2, v2);
    }
  }

  /** The URL map after one more entry: a body image sets its key, anything else leaves the map alone. */
  lemma RouteMapStep(listing: seq<(string, string)>, present: set<string>, upload: (string, bool) -> Option<string>)
    requires listing != []
    ensures var n := |listing| - 1;
      var e := listing[n];
      var before := Route(listing[..n], present, upload).1;
      Route(listing, present, upload).1 ==
        if Body(e, present, upload) then before[LocalPath(e.1) := UploadResult(PathJoin(e.0, e.1), false, present, upload).value]
        else before
  {
  }

  lemma RouteSnoc(listing: seq<(string, string)>, i: nat, present: set<string>, upload: (string, bool) -> Option<string>)
    requires i < |listing|
    ensures var prev := Route(listing[..i], present, upload);
      var e := listing[i];
      var full := PathJoin(e.0, e.1);
      Route(listing[..i + 1], present, upload) ==
        if !Eligible(e.1) then prev
        else if Contains(e.1, "COVER") then (UploadResult(full, true, present, upload), prev.1)
        else if Truthy(UploadResult(full, false, present, upload)) then (prev.0, prev.1[LocalPath(e.1) := UploadResult(full, false, present, upload).value])
        else prev
  {
    var pre := listing[..i + 1];
    assert pre[..|pre| - 1] == listing[..i];
    assert pre[|pre| - 1] == listing[i];
  }

  /** One pass of the conversion loop: the HTML appended for `raw`, and whether the lead is still to come. */
  method ConvertLine(raw: string, assets: map<string, string>, first: bool, st: Styles) returns (added: string, first': bool)
    ensures added == if LinePiece(raw, assets).Some? then BlockHtml(Place(LinePiece(raw, assets).value, first), st) else []
    ensures first' == (first && !(LinePiece(raw, assets).Some? && LinePiece(raw, assets).value.Prose?))
  {
    added, first' := [], first;
    var line := Strip(raw);
    assert LinePiece(raw, assets) == StrippedPiece(line, assets);
    if line == [] {
      return;
    }
    if StartsWith(line, "![]") {
      var m := ParenGroup(line);
      if m.Some? {
        var localPath := m.value;
        if localPath in assets && assets[localPath] != [] {
          var b := Img(assets[localPath], StyleFor(localPath));
          added := BlockHtml(b, st);
        }
      }
    } else {
      var clean := CleanText(line);
      if clean != [] {
        var b := if first then Lead(clean) else Para(clean);
        added := BlockHtml(b, st);
        first' := false;
      }
    }
  }

  /** The loop of `md_to_wechat_html`: the fragments of all lines, with the lead paragraph marked once. */
  method ConvertLines(lines: seq<string>, assets: map<string, string>, st: Styles) returns (body: string)
    ensures body == BlocksHtml(Layout(Pieces(lines, assets)), st)
  {
    body := [];
    var first := true;
    for i := 0 to |lines|
      invariant Converted(lines[..i], assets, st, body, first)
    {
      body, first := ConvertNext(lines, i, assets, st, body, first);
    }
    assert lines[..|lines|] == lines;
  }

  /** One pass of the loop, as a step from the state after `lines[..i]` to the state after `lines[..i + 1]`. */
  method ConvertNext(lines: seq<string>, i: nat, assets: map<string, string>, st: Styles, body: string, first: bool)
    returns (body': string, first': bool)
    requires i < |lines| && Converted(lines[..i], assets, st, body, first)
    ensures Converted(lines[..i + 1], assets, st, body', first')
  {
    var added;
    added, first' := ConvertLine(lines[i], assets, first, st);
    ConvertStep(lines, i, assets, st);
    body' := body + added;
  }

  class WeChatPublisher {
    var appId: string
    var appSecret: string
    /** `self.token`, fetched once by the constructor. */
    var token: Option<string>
    /** The module's `STYLE_CONFIG` and inline markup, fixed for the process. */
    var styles: Styles

    /** `__init__`: store the credentials and fetch the token; `tokenReply` is what the token endpoint answers. */
    constructor (appId: string, appSecret: string, tokenReply: Option<string>)
      ensures this.appId == appId && this.appSecret == appSecret
      ensures token == AccessToken(appId, appSecret, tokenReply)
      ensures styles == StyleConfig
    {
      this.appId := appId;
      this.appSecret := appSecret;
      token := AccessToken(appId, appSecret, tokenReply);
      styles := StyleConfig;
    }

    /** `upload_image`: a missing file is never sent; otherwise the endpoint's answer. */
    method UploadImage(path: string, isThumb: bool, present: set<string>, upload: (string, bool) -> Option<string>)
      returns (r: Option<string>)
      ensures r == UploadResult(path, isThumb, present, upload)
    {
      if path !in present {
        return None;
      }
      r := upload(path, isThumb);
    }

    /** `md_to_wechat_html`. */
    method MdToWechatHtml(md: string, assets: map<string, string>) returns (html: string)
      ensures html == ArticleHtml(md, assets, styles)
    {
      var body := ConvertLines(SplitLines(md), assets, styles);
      html := "<div style=\"" + styles.body + "\">" + body + "</div>";
    }

    /** The `os.walk` loop of `publish_draft`. */
    method RouteAssets(listing: seq<(string, string)>, present: set<string>, upload: (string, bool) -> Option<string>)
      returns (thumb: Option<string>, assets: map<string, string>)
      ensures (thumb, assets) == Route(listing, present, upload)
    {
      thumb, assets := None, map[];
      var i := 0;
      while i < |listing|
        invariant 0 <= i <= |listing|
        invariant (thumb, assets) == Route(listing[..i], present, upload)
      {
        RouteSnoc(listing, i, present, upload);
        thumb, assets := RouteEntry(listing[i], thumb, assets, present, upload);
        i := i + 1;
      }
      assert listing[..i] == listing;
    }

    /** One pass of the `os.walk` loop, for the file `e.1` found in the folder `e.0`. */
    method RouteEntry(e: (string, string), thumb: Option<string>, assets: map<string, string>,
                      present: set<string>, upload: (string, bool) -> Option<string>)
      returns (thumb': Option<string>, assets': map<string, string>)
      ensures var full := PathJoin(e.0, e.1);
        (thumb', assets') ==
          if !Eligible(e.1) then (thumb, assets)
          else if Contains(e.1, "COVER") then (UploadResult(full, true, present, upload), assets)
          else if Truthy(UploadResult(full, false, present, upload)) then (thumb, assets[LocalPath(e.1) := UploadResult(full, false, present, upload).value])
          else (thumb, assets)
    {
      var (root, file) := e;
      thumb', assets' := thumb, assets;
      if Eligible(file) {
        var localPath := LocalPath(file);
        var fullPath := PathJoin(root, file);
        if Contains(file, "COVER") {
          thumb' := UploadImage(fullPath, true, present, upload);
        } else {
          var url := UploadImage(fullPath, false, present, upload);
          if Truthy(url) {
            assets' := assets[localPath := url.value];
          }
        }
      }
    }

    /** Where `publish_draft` looks for the article: `FINAL_<folder>.md` in the folder's output directory. */
    function DraftSource(baseOutputDir: string, folderName: string): string {
      PathJoin(PathJoin(baseOutputDir, folderName), "FINAL_" + folderName + ".md")
    }

    /**
     * `publish_draft`: nothing is uploaded or posted when the final Markdown
     * file is missing or there is no token; otherwise the article that is
     * posted. `listing` is what `os.walk` yields under `assets/`, `content`
     * the final Markdown's text and `upload` the upload endpoints' answers.
     */
    method PublishDraft(folderName: string, authorName: string, baseOutputDir: string,
                        present: set<string>, listing: seq<(string, string)>, content: string,
                        upload: (string, bool) -> Option<string>)
      returns (article: Option<Article>)
      ensures DraftSource(baseOutputDir, folderName) !in present || !Truthy(token) ==> article == None
      ensures DraftSource(baseOutputDir, folderName) in present && Truthy(token) ==>
        var r := Route(listing, present, upload);
        article == Some(Article(ReplaceAll(folderName, ".md", []), authorName, [], ArticleHtml(content, r.1, styles), r.0.GetOr([]), 1))
    {
      var mdFile := SourcePath(baseOutputDir, folderName);
      if mdFile !in present {
        return None;
      }
      if !Truthy(token) {
        return None;
      }
      var thumb, assets := RouteAssets(listing, present, upload);
      var finalHtml := MdToWechatHtml(content, assets);
      var title := ReplaceAll(folderName, ".md", []);
      article := Some(Article(title, authorName, [], finalHtml, thumb.GetOr([]), 1));
    }

    /**
     * The article's own folder under the output directory, and in it the
     * final Markdown file named after the folder.
     */
    method SourcePath(baseOutputDir: string, folderName: string) returns (mdFile: string)
      ensures mdFile == DraftSource(baseOutputDir, folderName)
      ensures StartsWith(mdFile, PathJoin(baseOutputDir, folderName))
      ensures folderName != [] && '/' !in folderName ==>
        StartsWith(mdFile, baseOutputDir) && Basename(mdFile) == "FINAL_" + folderName + ".md"
    {
      var baseDir := PathJoin(baseOutputDir, folderName);
      var name := "FINAL_" + folderName + ".md";
      mdFile := PathJoin(baseDir, name);
      JoinUnder(baseDir, name);
      if folderName != [] && '/' !in folderName {
        assert folderName[0] != '/';
        JoinUnder(baseOutputDir, folderName);
        assert '/' !in "FINAL_" && '/' !in ".md";
        BasenameOfJoin(baseDir, name);
      }
    }
  }

  /** The draft's title drops the `.md` of a Markdown file name whose stem holds no `.md`. */
  lemma {:induction false} TitleOfMarkdownName(name: string)
    requires !Contains(name, ".md")
    ensures ReplaceAll(name + ".md", ".md", []) == name
    decreases |name|
  {
    var s := name + ".md";
    if name == [] {
      assert s == ".md" + [];
      ReplaceAtMatch(".md", [], []);
    } else {
      assert !StartsWith(s, ".md") by {
        if |name| >= 3 {
          assert s[..3] == name[..3];
        } else if |name| == 2 {
          assert s[2] == '.';
        } else {
          assert s[1] == '.';
        }
      }
      assert s[1..] == name[1..] + ".md";
      TitleOfMarkdownName(name[1..]);
      assert [name[0]] + name[1..] == name;
    }
  }
}
