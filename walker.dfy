/**
 * The document walker of app.py's `main`: every line of the Markdown file is
 * stripped, normalised and classified by prefix; titles, section headings and
 * quotes become rendered cards, image lines become copied assets, and the
 * rewritten Markdown (`new_con`) embeds them. The clock and the file system are
 * parameters.
 */
module Walker {
  import opened Wrappers
  import opened Strings
  import opened Paths
  import opened TextNormalizer
  import opened Markup

  const UntitledArticle: string := "未命名文章"

  /** A file the walker has written into `assets/`; `ts` is the timestamp of the line that produced it. */
  datatype Asset =
    | Cover(ts: nat, text: string)
    | Header(ts: nat, text: string, readMins: nat)
    | Heading(ts: nat, text: string, index: nat)
    | QuoteCard(ts: nat, text: string)
    | ImageCopy(ts: nat, source: string, ext: string)

  function Prefix(a: Asset): string {
    match a
    case Cover(_, _) => "COVER_"
    case Header(_, _, _) => "HEADER_"
    case Heading(_, _, _) => "H_"
    case QuoteCard(_, _) => "Q_"
    case ImageCopy(_, _, _) => "IMG_"
  }

  function Suffix(a: Asset): string {
    match a
    case Heading(_, _, _) => ".gif"
    case ImageCopy(_, _, ext) => ext
    case _ => ".png"
  }

  /** The asset's file name, as the f-strings in `main` build it. */
  function AssetName(a: Asset): string {
    Prefix(a) + NatToString(a.ts) + Suffix(a)
  }

  /** A copied image keeps the extension `os.path.splitext` gives, which is empty or starts with a dot. */
  predicate WellFormed(a: Asset) {
    a.ImageCopy? ==> a.ext == [] || a.ext[0] == '.'
  }

  /** One entry of `new_con`: the embed of a generated asset, or text passed through. */
  datatype Item = Embed(asset: Asset) | Verbatim(text: string)

  predicate NoCoverEmbeds(items: seq<Item>) {
    forall k :: 0 <= k < |items| && items[k].Embed? ==> !items[k].asset.Cover?
  }

  /** The text `main` appends for an item; covers are never embedded. */
  function RenderItem(it: Item): string
    requires it.Embed? ==> !it.asset.Cover?
  {
    match it
    case Verbatim(t) => t
    case Embed(a) =>
      match a
      case Header(_, _, _) => "![](assets/" + AssetName(a) + ")\n\n"
      case ImageCopy(_, _, _) => "![](assets/" + AssetName(a) + ")\n"
      case _ => "\n![](assets/" + AssetName(a) + ")\n"
  }

  /** `new_con` as strings. */
  function Render(items: seq<Item>): (r: seq<string>)
    requires NoCoverEmbeds(items)
    ensures |r| == |items|
  {
    seq(|items|, k requires 0 <= k < |items| && NoCoverEmbeds(items) => RenderItem(items[k]))
  }

  lemma RenderOne(it: Item)
    requires it.Embed? ==> !it.asset.Cover?
    ensures Render([it]) == [RenderItem(it)]
  {
  }

  /** The loop's variables: `new_con` (as items), `h_cnt`, `main_title`, and the files written so far. */
  datatype State = State(items: seq<Item>, headings: nat, mainTitle: string, assets: seq<Asset>)

  const Init: State := State([], 0, UntitledArticle, [])

  /** How a stripped, normalised line is handled, by prefix priority. */
  datatype Block = Title(text: string) | Section(text: string) | Quote(text: string) | ImageRef(line: string) | Paragraph(line: string)

  /** `auto_format_text(line.strip())`. */
  function Normalize(raw: string): string {
    AutoFormat(Strip(raw))
  }

  /** The prefix tests of the loop, in order; the marker is removed everywhere in the line, as `str.replace` does. */
  function Classify(line: string): Block {
    if StartsWith(line, "# ") then Title(Strip(ReplaceAll(line, "# ", "")))
    else if StartsWith(line, "## ") then Section(Strip(ReplaceAll(line, "## ", "")))
    else if StartsWith(line, "> ") then Quote(Strip(ReplaceAll(line, "> ", "")))
    else if StartsWith(line, "![") then ImageRef(line)
    else Paragraph(line)
  }

  /** Where an image line's path is looked for, in order. */
  function ImageCandidates(src: string, inputDir: string): seq<string> {
    [src, PathJoin(inputDir, src), PathJoin(inputDir, Basename(src))]
  }

  /** What one line adds: items, assets, whether it is a numbered section, and a title if it is one. */
  datatype Delta = Delta(items: seq<Item>, assets: seq<Asset>, heading: bool, title: Option<string>)

  const NoChange: Delta := Delta([], [], false, None)

  /** A title line: the header embed, the cover and the header; `main_title` changes even when the text is empty. */
  function TitleDelta(txt: string, ts: nat, mins: nat): (d: Delta)
    ensures |d.items| <= 1 && |d.assets| <= 2 && !d.heading && d.title == Some(txt)
    ensures forall k :: 0 <= k < |d.assets| ==> d.assets[k].ts == ts && WellFormed(d.assets[k])
    ensures |d.assets| == 2 ==> d.assets[0].Cover? && d.assets[1].Header?
    ensures NoCoverEmbeds(d.items)
  {
    if txt == [] then Delta([], [], false, Some(txt))
    else
      var h := Header(ts, txt, mins);
      Delta([Embed(h)], [Cover(ts, txt), h], false, Some(txt))
  }

  lemma EmbeddedOne(it: Item)
    ensures Embedded([it]) == if it.Embed? then [it.asset] else []
  {
    assert [it][..0] == [];
  }

  lemma AssetOne(a: Asset)
    ensures NonCovers([a]) == if a.Cover? then [] else [a]
    ensures HeadingNumbers([a]) == if a.Heading? then [a.index] else []
  {
    var s := [a];
    assert s[..0] == [] && s[0] == a;
    assert NonCovers(s) == NonCovers(s[..0]) + (if a.Cover? then [] else [a]);
    assert HeadingNumbers(s) == HeadingNumbers(s[..0]) + (if a.Heading? then [a.index] else []);
  }

  /** A card line (section or quote) with text: one card, embedded. */
  function CardDelta(a: Asset): (d: Delta)
    requires a.Heading? || a.QuoteCard?
    ensures |d.items| == 1 && d.assets == [a] && d.heading == a.Heading? && d.title.None?
    ensures NoCoverEmbeds(d.items)
  {
    Delta([Embed(a)], [a], a.Heading?, None)
  }

  /** An image line: copy the first candidate that is a file, or pass the line through, or drop it when it has no `(...)`. */
  function ImageDelta(l: string, ts: nat, inputDir: string, files: set<string>): (d: Delta)
    ensures |d.items| <= 1 && |d.assets| <= 1 && !d.heading && d.title.None?
    ensures forall k :: 0 <= k < |d.assets| ==> d.assets[k].ts == ts && WellFormed(d.assets[k]) && d.assets[k].ImageCopy?
    ensures NoCoverEmbeds(d.items)
  {
    match ParenGroup(l)
    case None => NoChange
    case Some(src) =>
      match FirstExisting(ImageCandidates(src, inputDir), files)
      case Some(p) =>
        var a := ImageCopy(ts, p, Ext(p));
        Delta([Embed(a)], [a], false, None)
      case None => Delta([Verbatim(l + "\n")], [], false, None)
  }

  /** What one classified line adds, stamped `ts`, with `headings` sections seen so far. */
  function BlockDelta(b: Block, ts: nat, headings: nat, mins: nat, inputDir: string, files: set<string>): (d: Delta)
    ensures |d.items| <= 1 && |d.assets| <= 2
    ensures forall k :: 0 <= k < |d.assets| ==> d.assets[k].ts == ts && WellFormed(d.assets[k])
    ensures |d.assets| == 2 ==> d.assets[0].Cover? && d.assets[1].Header?
    ensures NoCoverEmbeds(d.items)
    ensures d.heading ==> b.Section?
    ensures d.title == if b.Title? then Some(b.text) else None
  {
    match b
    case Title(txt) => TitleDelta(txt, ts, mins)
    case Section(txt) => if txt == [] then NoChange else CardDelta(Heading(ts, txt, headings + 1))
    case Quote(txt) => if txt == [] then NoChange else CardDelta(QuoteCard(ts, txt))
    case ImageRef(l) => ImageDelta(l, ts, inputDir, files)
    case Paragraph(l) => Delta([Verbatim(if l == [] then "\n" else l + "\n")], [], false, None)
  }

  /** One iteration of the loop for the normalised `line`. */
  function LineDelta(line: string, ts: nat, headings: nat, mins: nat, inputDir: string, files: set<string>): (d: Delta)
    ensures |d.items| <= 1 && |d.assets| <= 2
    ensures forall k :: 0 <= k < |d.assets| ==> d.assets[k].ts == ts && WellFormed(d.assets[k])
    ensures |d.assets| == 2 ==> d.assets[0].Cover? && d.assets[1].Header?
    ensures NoCoverEmbeds(d.items)
    ensures d.heading ==> Classify(line).Section?
    ensures d.title == if Classify(line).Title? then Some(Classify(line).text) else None
  {
    BlockDelta(Classify(line), ts, headings, mins, inputDir, files)
  }

  function Apply(st: State, d: Delta): State {
    State(st.items + d.items,
          if d.heading then st.headings + 1 else st.headings,
          if d.title.Some? then Split(d.title.value, '|')[0] else st.mainTitle,
          st.assets + d.assets)
  }

  /** `int(time.time() * 10000) + i`: the clock reading at line `i`, plus `i`. */
  function Stamp(clock: nat -> nat, i: nat): nat {
    clock(i) + i
  }

  /** The loop over `lines`, line `i` stamped `Stamp(clock, i)`. */
  function Walk(lines: seq<string>, clock: nat -> nat, mins: nat, inputDir: string, files: set<string>): (r: State)
    ensures NoCoverEmbeds(r.items)
    decreases |lines|
  {
    if lines == [] then Init
    else
      var n := |lines| - 1;
      var prev := Walk(lines[..n], clock, mins, inputDir, files);
      Apply(prev, LineDelta(Normalize(lines[n]), Stamp(clock, n), prev.headings, mins, inputDir, files))
  }

  /** The walker over a whole file: its lines, with the reading time of its length. */
  function Document(fullText: string, clock: nat -> nat, inputDir: string, files: set<string>): State {
    Walk(SplitLines(fullText), clock, ReadTimeMinutes(|fullText|), inputDir, files)
  }

  /** Every header among `assets` shows `mins` as its reading time. */
  predicate HeadersRead(assets: seq<Asset>, mins: nat) {
    forall k :: 0 <= k < |assets| && assets[k].Header? ==> assets[k].readMins == mins
  }

  lemma BlockHeadersRead(b: Block, ts: nat, headings: nat, mins: nat, inputDir: string, files: set<string>)
    ensures HeadersRead(BlockDelta(b, ts, headings, mins, inputDir, files).assets, mins)
  {
  }

  /** Every header a walk writes shows the walk's reading time. */
  lemma {:induction false} WalkHeadersRead(lines: seq<string>, clock: nat -> nat, mins: nat, inputDir: string, files: set<string>)
    ensures HeadersRead(Walk(lines, clock, mins, inputDir, files).assets, mins)
    decreases |lines|
  {
    if lines != [] {
      var n := |lines| - 1;
      var prev := Walk(lines[..n], clock, mins, inputDir, files);
      WalkHeadersRead(lines[..n], clock, mins, inputDir, files);
      var d := LineDelta(Normalize(lines[n]), Stamp(clock, n), prev.headings, mins, inputDir, files);
      BlockHeadersRead(Classify(Normalize(lines[n])), Stamp(clock, n), prev.headings, mins, inputDir, files);
      var all := prev.assets + d.assets;
      assert forall k :: 0 <= k < |all| ==> all[k] == if k < |prev.assets| then prev.assets[k] else d.assets[k - |prev.assets|];
    }
  }

  /**
   * A file's run: an empty file writes and embeds nothing and keeps the
   * default title; otherwise `new_con` has at most one entry per line of the
   * file, and every header shows a reading time m of at least one minute with
   * `400 * (m - 1) < len(full_text) <= 400 * m`.
   */
  lemma DocumentShape(fullText: string, clock: nat -> nat, inputDir: string, files: set<string>)
    ensures fullText == [] ==> Document(fullText, clock, inputDir, files) == Init
    ensures var st := Document(fullText, clock, inputDir, files);
      |st.items| <= |SplitLines(fullText)|
      && forall k :: 0 <= k < |st.assets| && st.assets[k].Header? ==>
           var m := st.assets[k].readMins;
           m >= 1 && (fullText != [] ==> 400 * (m - 1) < |fullText| <= 400 * m)
  {
    var mins := ReadTimeMinutes(|fullText|);
    WalkHeadersRead(SplitLines(fullText), clock, mins, inputDir, files);
    AtMostOneLinePerLine(SplitLines(fullText), clock, mins, inputDir, files);
  }

  /** Rendering distributes over concatenation. */
  lemma RenderAppend(a: seq<Item>, b: seq<Item>)
    requires NoCoverEmbeds(a) && NoCoverEmbeds(b)
    ensures NoCoverEmbeds(a + b)
    ensures Render(a + b) == Render(a) + Render(b)
  {
    var ab := a + b;
    assert forall k :: 0 <= k < |a| ==> ab[k] == a[k];
    assert forall k :: |a| <= k < |ab| ==> ab[k] == b[k - |a|];
  }

  /** Walking one more line applies that line's delta to the state so far. */
  lemma WalkSnoc(lines: seq<string>, i: nat, clock: nat -> nat, mins: nat, inputDir: string, files: set<string>)
    requires i < |lines|
    ensures var prev := Walk(lines[..i], clock, mins, inputDir, files);
            Walk(lines[..i + 1], clock, mins, inputDir, files) ==
            Apply(prev, LineDelta(Normalize(lines[i]), Stamp(clock, i), prev.headings, mins, inputDir, files))
  {
    var pre := lines[..i + 1];
    assert pre[..|pre| - 1] == lines[..i];
    assert pre[|pre| - 1] == lines[i];
    WalkLast(pre, clock, mins, inputDir, files);
  }

  lemma WalkLast(lines: seq<string>, clock: nat -> nat, mins: nat, inputDir: string, files: set<string>)
    requires lines != []
    ensures var prev := Walk(lines[..|lines| - 1], clock, mins, inputDir, files);
            Walk(lines, clock, mins, inputDir, files) ==
            Apply(prev, LineDelta(Normalize(lines[|lines| - 1]), Stamp(clock, |lines| - 1), prev.headings, mins, inputDir, files))
  {
  }

  /**
   * One iteration of `main`'s loop on the normalised `line` stamped `ts`: the
   * strings it appends to `new_con`, the files it writes, and the new `h_cnt`
   * and `main_title`.
   */
  method ProcessLine(line: string, ts: nat, hCnt: nat, mainTitle: string, mins: nat, inputDir: string, files: set<string>)
    returns (out: seq<string>, written: seq<Asset>, hCnt': nat, mainTitle': string)
    ensures out == Render(LineDelta(line, ts, hCnt, mins, inputDir, files).items)
    ensures written == LineDelta(line, ts, hCnt, mins, inputDir, files).assets
    ensures hCnt' == if LineDelta(line, ts, hCnt, mins, inputDir, files).heading then hCnt + 1 else hCnt
    ensures mainTitle' == if Classify(line).Title? then Split(Classify(line).text, '|')[0] else mainTitle
  {
    out, written, hCnt', mainTitle' := [], [], hCnt, mainTitle;
    if StartsWith(line, "# ") {
      var txt := Strip(ReplaceAll(line, "# ", ""));
      assert Classify(line) == Title(txt);
      assert LineDelta(line, ts, hCnt, mins, inputDir, files) == TitleDelta(txt, ts, mins);
      mainTitle' := Split(txt, '|')[0];
      out, written := ProcessTitle(txt, ts, mins);
    } else if StartsWith(line, "## ") {
      var txt := Strip(ReplaceAll(line, "## ", ""));
      assert Classify(line) == Section(txt);
      if txt != [] {
        assert LineDelta(line, ts, hCnt, mins, inputDir, files) == CardDelta(Heading(ts, txt, hCnt + 1));
        hCnt' := hCnt + 1;
        out, written := ProcessCard(Heading(ts, txt, hCnt'));
      } else {
        assert LineDelta(line, ts, hCnt, mins, inputDir, files) == NoChange;
      }
    } else if StartsWith(line, "> ") {
      var txt := Strip(ReplaceAll(line, "> ", ""));
      assert Classify(line) == Quote(txt);
      if txt != [] {
        assert LineDelta(line, ts, hCnt, mins, inputDir, files) == CardDelta(QuoteCard(ts, txt));
        out, written := ProcessCard(QuoteCard(ts, txt));
      } else {
        assert LineDelta(line, ts, hCnt, mins, inputDir, files) == NoChange;
      }
    } else if StartsWith(line, "![") {
      assert Classify(line) == ImageRef(line);
      assert LineDelta(line, ts, hCnt, mins, inputDir, files) == ImageDelta(line, ts, inputDir, files);
      out, written := ProcessImage(line, ts, inputDir, files);
    } else {
      assert Classify(line) == Paragraph(line);
      var it := Verbatim(if line == [] then "\n" else line + "\n");
      assert LineDelta(line, ts, hCnt, mins, inputDir, files) == Delta([it], [], false, None);
      out := [it.text];
      RenderOne(it);
    }
  }

  /** The title branch of the loop: draw the cover and the header, embed the header. */
  method ProcessTitle(txt: string, ts: nat, mins: nat) returns (out: seq<string>, written: seq<Asset>)
    ensures out == Render(TitleDelta(txt, ts, mins).items)
    ensures written == TitleDelta(txt, ts, mins).assets
  {
    out, written := [], [];
    if txt != [] {
      var h := Header(ts, txt, mins);
      written := [Cover(ts, txt), h];
      out := ["![](assets/" + AssetName(h) + ")\n\n"];
      assert out == Render([Embed(h)]);
    }
  }

  /** The section and quote branches of the loop: draw the card and embed it. */
  method ProcessCard(a: Asset) returns (out: seq<string>, written: seq<Asset>)
    requires a.Heading? || a.QuoteCard?
    ensures out == Render(CardDelta(a).items)
    ensures written == CardDelta(a).assets
  {
    written := [a];
    out := ["\n![](assets/" + AssetName(a) + ")\n"];
    assert out == Render([Embed(a)]);
  }

  /** The image branch of the loop: probe the candidate paths in order and copy the first existing file. */
  method ProcessImage(line: string, ts: nat, inputDir: string, files: set<string>) returns (out: seq<string>, written: seq<Asset>)
    ensures out == Render(ImageDelta(line, ts, inputDir, files).items)
    ensures written == ImageDelta(line, ts, inputDir, files).assets
  {
    out, written := [], [];
    var m := ParenGroup(line);
    if m.Some? {
      var found := FindExisting(ImageCandidates(m.value, inputDir), files);
      if found.Some? {
        var a := ImageCopy(ts, found.value, Ext(found.value));
        written := [a];
        out := ["![](assets/" + AssetName(a) + ")\n"];
        RenderOne(Embed(a));
      } else {
        out := [line + "\n"];
        RenderOne(Verbatim(line + "\n"));
      }
    }
  }

  /** The loop's variables agree with the walk state `st`. */
  predicate Tracks(st: State, newCon: seq<string>, hCnt: nat, mainTitle: string, assets: seq<Asset>) {
    NoCoverEmbeds(st.items) && newCon == Render(st.items) && hCnt == st.headings && mainTitle == st.mainTitle && assets == st.assets
  }

  /** One iteration of the loop keeps its variables in step with the walk. */
  lemma TracksStep(lines: seq<string>, i: nat, clock: nat -> nat, mins: nat, inputDir: string, files: set<string>,
                   newCon: seq<string>, hCnt: nat, mainTitle: string, assets: seq<Asset>,
                   out: seq<string>, written: seq<Asset>, hCnt': nat, mainTitle': string)
    requires i < |lines|
    requires Tracks(Walk(lines[..i], clock, mins, inputDir, files), newCon, hCnt, mainTitle, assets)
    requires var line := Normalize(lines[i]);
             var d := LineDelta(line, Stamp(clock, i), hCnt, mins, inputDir, files);
             && out == Render(d.items) && written == d.assets
             && hCnt' == (if d.heading then hCnt + 1 else hCnt)
             && mainTitle' == if Classify(line).Title? then Split(Classify(line).text, '|')[0] else mainTitle
    ensures Tracks(Walk(lines[..i + 1], clock, mins, inputDir, files), newCon + out, hCnt', mainTitle', assets + written)
  {
    var prev := Walk(lines[..i], clock, mins, inputDir, files);
    WalkSnoc(lines, i, clock, mins, inputDir, files);
    RenderAppend(prev.items, LineDelta(Normalize(lines[i]), Stamp(clock, i), hCnt, mins, inputDir, files).items);
  }

  /** The loop of `main`, appending to `new_con` and updating `h_cnt` and `main_title` as it goes. */
  method Generate(lines: seq<string>, clock: nat -> nat, mins: nat, inputDir: string, files: set<string>)
    returns (newCon: seq<string>, hCnt: nat, mainTitle: string, assets: seq<Asset>)
    ensures var st := Walk(lines, clock, mins, inputDir, files);
            newCon == Render(st.items) && hCnt == st.headings && mainTitle == st.mainTitle && assets == st.assets
  {
    newCon, hCnt, mainTitle, assets := [], 0, UntitledArticle, [];
    var i := 0;
    while i < |lines|
      invariant 0 <= i <= |lines|
      invariant Tracks(Walk(lines[..i], clock, mins, inputDir, files), newCon, hCnt, mainTitle, assets)
    {
      var out, written, hCnt', mainTitle' := ProcessLine(Normalize(lines[i]), Stamp(clock, i), hCnt, mainTitle, mins, inputDir, files);
      TracksStep(lines, i, clock, mins, inputDir, files, newCon, hCnt, mainTitle, assets, out, written, hCnt', mainTitle');
      newCon, hCnt, mainTitle, assets := newCon + out, hCnt', mainTitle', assets + written;
      i := i + 1;
    }
    assert lines[..|lines|] == lines;
  }

  // ---------------------------------------------------------------------
  // Embeds and covers

  /** The assets embedded by `items`, in order. */
  function Embedded(items: seq<Item>): seq<Asset>
    decreases |items|
  {
    if items == [] then []
    else
      var last := items[|items| - 1];
      Embedded(items[..|items| - 1]) + (if last.Embed? then [last.asset] else [])
  }

  /** The assets that are not covers, in order. */
  function NonCovers(assets: seq<Asset>): (r: seq<Asset>)
    ensures forall k :: 0 <= k < |r| ==> !r[k].Cover?
    decreases |assets|
  {
    if assets == [] then []
    else
      var last := assets[|assets| - 1];
      NonCovers(assets[..|assets| - 1]) + (if last.Cover? then [] else [last])
  }

  lemma {:induction false} EmbeddedAppend(a: seq<Item>, b: seq<Item>)
    ensures Embedded(a + b) == Embedded(a) + Embedded(b)
    decreases |b|
  {
    if b == [] {
      assert a + b == a;
    } else {
      var n := |b| - 1;
      assert (a + b)[..|a + b| - 1] == a + b[..n];
      EmbeddedAppend(a, b[..n]);
    }
  }

  lemma {:induction false} NonCoversAppend(a: seq<Asset>, b: seq<Asset>)
    ensures NonCovers(a + b) == NonCovers(a) + NonCovers(b)
    decreases |b|
  {
    if b == [] {
      assert a + b == a;
    } else {
      var n := |b| - 1;
      assert (a + b)[..|a + b| - 1] == a + b[..n];
      NonCoversAppend(a, b[..n]);
    }
  }

  /**
   * `new_con` embeds every generated card and copied image exactly once, in the
   * order they were produced, and no cover: the COVER files are written but
   * never referenced.
   */
  lemma {:induction false} EmbedsAreNonCovers(lines: seq<string>, clock: nat -> nat, mins: nat, inputDir: string, files: set<string>)
    ensures var st := Walk(lines, clock, mins, inputDir, files);
            Embedded(st.items) == NonCovers(st.assets)
    decreases |lines|
  {
    if lines != [] {
      var prev := Walk(lines[..|lines| - 1], clock, mins, inputDir, files);
      EmbedsAreNonCovers(lines[..|lines| - 1], clock, mins, inputDir, files);
      var d := LineDelta(Normalize(lines[|lines| - 1]), Stamp(clock, |lines| - 1), prev.headings, mins, inputDir, files);
      LineDeltaEmbeds(Normalize(lines[|lines| - 1]), Stamp(clock, |lines| - 1), prev.headings, mins, inputDir, files);
      EmbeddedAppend(prev.items, d.items);
      NonCoversAppend(prev.assets, d.assets);
    }
  }

  /** A title line with text embeds exactly its HEADER card and writes its COVER alongside. */
  lemma TitleLine(line: string, ts: nat, headings: nat, mins: nat, inputDir: string, files: set<string>)
    requires Classify(line).Title? && Classify(line).text != []
    ensures var d := LineDelta(line, ts, headings, mins, inputDir, files);
            var txt := Classify(line).text;
            d.items == [Embed(Header(ts, txt, mins))] && d.assets == [Cover(ts, txt), Header(ts, txt, mins)]
  {
  }

  /** A blank source line becomes a lone line feed in `new_con`. */
  lemma BlankLine(raw: string, ts: nat, headings: nat, mins: nat, inputDir: string, files: set<string>)
    requires IsBlank(raw)
    ensures LineDelta(Normalize(raw), ts, headings, mins, inputDir, files) == Delta([Verbatim("\n")], [], false, None)
  {
    assert Strip(raw) == [];
    AutoFormatFixed([]);
  }

  /** An image line copies the first candidate path that is an existing file, under an `IMG_` name with its extension. */
  lemma ImageLineCopies(line: string, src: string, i: nat, ts: nat, inputDir: string, files: set<string>)
    requires ParenGroup(line) == Some(src)
    requires i < 3 && ImageCandidates(src, inputDir)[i] in files
    requires forall j :: 0 <= j < i ==> ImageCandidates(src, inputDir)[j] !in files
    ensures var p := ImageCandidates(src, inputDir)[i];
            ImageDelta(line, ts, inputDir, files) == Delta([Embed(ImageCopy(ts, p, Ext(p)))], [ImageCopy(ts, p, Ext(p))], false, None)
  {
    FirstExistingAt(ImageCandidates(src, inputDir), files, i);
  }

  /** Without any existing candidate the image line passes through unchanged. */
  lemma ImageLineKept(line: string, src: string, ts: nat, inputDir: string, files: set<string>)
    requires ParenGroup(line) == Some(src)
    requires forall c :: c in ImageCandidates(src, inputDir) ==> c !in files
    ensures ImageDelta(line, ts, inputDir, files) == Delta([Verbatim(line + "\n")], [], false, None)
  {
    var cs := ImageCandidates(src, inputDir);
    assert forall i :: 0 <= i < |cs| ==> cs[i] in cs;
  }

  /** An image line without a `(...)` group is dropped. */
  lemma ImageLineDropped(line: string, ts: nat, inputDir: string, files: set<string>)
    requires ParenGroup(line).None?
    ensures ImageDelta(line, ts, inputDir, files) == NoChange
  {
  }

  // ---------------------------------------------------------------------
  // Section numbering

  /** The numbers drawn on the section-heading cards, in order. */
  function HeadingNumbers(assets: seq<Asset>): seq<nat>
    decreases |assets|
  {
    if assets == [] then []
    else
      var last := assets[|assets| - 1];
      HeadingNumbers(assets[..|assets| - 1]) + (if last.Heading? then [last.index] else [])
  }

  lemma {:induction false} HeadingNumbersAppend(a: seq<Asset>, b: seq<Asset>)
    ensures HeadingNumbers(a + b) == HeadingNumbers(a) + HeadingNumbers(b)
    decreases |b|
  {
    if b == [] {
      assert a + b == a;
    } else {
      var n := |b| - 1;
      assert (a + b)[..|a + b| - 1] == a + b[..n];
      HeadingNumbersAppend(a, b[..n]);
    }
  }

  /**
   * What one line writes and what it embeds agree: every file but the cover is
   * embedded, and a numbered section card carries the next number.
   */
  predicate EmbedsAgree(d: Delta, headings: nat) {
    Embedded(d.items) == NonCovers(d.assets) &&
    HeadingNumbers(d.assets) == if d.heading then [headings + 1] else []
  }

  lemma TitleEmbeds(txt: string, ts: nat, mins: nat, headings: nat)
    ensures EmbedsAgree(TitleDelta(txt, ts, mins), headings)
  {
    if txt != [] {
      var c, h := Cover(ts, txt), Header(ts, txt, mins);
      EmbeddedOne(Embed(h));
      AssetOne(c);
      AssetOne(h);
      assert [c, h] == [c] + [h];
      NonCoversAppend([c], [h]);
      HeadingNumbersAppend([c], [h]);
    }
  }

  lemma CardEmbeds(a: Asset, headings: nat)
    requires a.Heading? ==> a.index == headings + 1
    requires a.Heading? || a.QuoteCard?
    ensures EmbedsAgree(CardDelta(a), headings)
  {
    EmbeddedOne(Embed(a));
    AssetOne(a);
  }

  lemma ImageEmbeds(l: string, ts: nat, inputDir: string, files: set<string>, headings: nat)
    ensures EmbedsAgree(ImageDelta(l, ts, inputDir, files), headings)
  {
    match ParenGroup(l)
    case None =>
    case Some(src) =>
      match FirstExisting(ImageCandidates(src, inputDir), files)
      case Some(p) =>
        var a := ImageCopy(ts, p, Ext(p));
        EmbeddedOne(Embed(a));
        AssetOne(a);
      case None =>
        EmbeddedOne(Verbatim(l + "\n"));
  }

  lemma BlockEmbeds(b: Block, ts: nat, headings: nat, mins: nat, inputDir: string, files: set<string>)
    ensures EmbedsAgree(BlockDelta(b, ts, headings, mins, inputDir, files), headings)
  {
    match b
    case Title(txt) => TitleEmbeds(txt, ts, mins, headings);
    case Section(txt) =>
      if txt != [] {
        CardEmbeds(Heading(ts, txt, headings + 1), headings);
      }
    case Quote(txt) =>
      if txt != [] {
        CardEmbeds(QuoteCard(ts, txt), headings);
      }
    case ImageRef(l) => ImageEmbeds(l, ts, inputDir, files, headings);
    case Paragraph(l) => EmbeddedOne(Verbatim(if l == [] then "\n" else l + "\n"));
  }

  lemma LineDeltaEmbeds(line: string, ts: nat, headings: nat, mins: nat, inputDir: string, files: set<string>)
    ensures EmbedsAgree(LineDelta(line, ts, headings, mins, inputDir, files), headings)
  {
    BlockEmbeds(Classify(line), ts, headings, mins, inputDir, files);
  }

  /** Section cards numbered 1, 2, ..., `h_cnt`, in order. */
  predicate NumberedToCount(assets: seq<Asset>, count: nat) {
    |HeadingNumbers(assets)| == count && forall k :: 0 <= k < count ==> HeadingNumbers(assets)[k] == k + 1
  }

  /** A line that adds a section card numbered one past the count keeps the numbering consecutive. */
  lemma NumberedStep(st: State, d: Delta)
    requires NumberedToCount(st.assets, st.headings)
    requires HeadingNumbers(d.assets) == if d.heading then [st.headings + 1] else []
    ensures NumberedToCount(Apply(st, d).assets, Apply(st, d).headings)
  {
    HeadingNumbersAppend(st.assets, d.assets);
  }

  /** Section cards are numbered 1, 2, ..., `h_cnt` in document order. */
  lemma {:induction false} HeadingNumbersConsecutive(lines: seq<string>, clock: nat -> nat, mins: nat, inputDir: string, files: set<string>)
    ensures var st := Walk(lines, clock, mins, inputDir, files);
            NumberedToCount(st.assets, st.headings)
    decreases |lines|
  {
    if lines != [] {
      var prev := Walk(lines[..|lines| - 1], clock, mins, inputDir, files);
      HeadingNumbersConsecutive(lines[..|lines| - 1], clock, mins, inputDir, files);
      var d := LineDelta(Normalize(lines[|lines| - 1]), Stamp(clock, |lines| - 1), prev.headings, mins, inputDir, files);
      LineDeltaEmbeds(Normalize(lines[|lines| - 1]), Stamp(clock, |lines| - 1), prev.headings, mins, inputDir, files);
      NumberedStep(prev, d);
    }
  }

  // ---------------------------------------------------------------------
  // Distinct asset names

  /** A clock that never runs backwards. */
  ghost predicate Monotone(clock: nat -> nat) {
    forall i, j :: 0 <= i <= j ==> clock(i) <= clock(j)
  }

  /** With such a clock, each line's stamp is above the previous line's. */
  lemma StampRises(clock: nat -> nat, i: nat)
    requires Monotone(clock)
    ensures Stamp(clock, i) < Stamp(clock, i + 1)
  {
    assert clock(i) <= clock(i + 1);
  }

  /** Assets in production order: timestamps rise, and only a cover and its header share one. */
  predicate Ordered(assets: seq<Asset>) {
    forall j, k :: 0 <= j < k < |assets| ==>
      assets[j].ts < assets[k].ts || (assets[j].ts == assets[k].ts && assets[j].Cover? && assets[k].Header?)
  }

  /** Well-formed assets, all stamped before `bound`. */
  predicate StampedBelow(assets: seq<Asset>, bound: nat) {
    forall k :: 0 <= k < |assets| ==> WellFormed(assets[k]) && assets[k].ts < bound
  }

  /** Appending one line's files, all stamped `ts`, after files stamped earlier keeps the order. */
  lemma OrderedAppend(a: seq<Asset>, b: seq<Asset>, ts: nat)
    requires Ordered(a) && StampedBelow(a, ts)
    requires forall k :: 0 <= k < |b| ==> b[k].ts == ts && WellFormed(b[k])
    requires |b| <= 2 && (|b| == 2 ==> b[0].Cover? && b[1].Header?)
    ensures Ordered(a + b) && StampedBelow(a + b, ts + 1)
  {
    var ab := a + b;
    forall j, k | 0 <= j < k < |ab|
      ensures ab[j].ts < ab[k].ts || (ab[j].ts == ab[k].ts && ab[j].Cover? && ab[k].Header?)
    {
      if k < |a| {
        assert ab[j] == a[j] && ab[k] == a[k];
      } else if j < |a| {
        assert ab[j] == a[j] && ab[k] == b[k - |a|];
      } else {
        assert ab[j] == b[0] && ab[k] == b[1];
      }
    }
    assert forall k :: 0 <= k < |ab| ==> ab[k] == if k < |a| then a[k] else b[k - |a|];
  }

  /** Files are written in order, each stamped before the next line's stamp. */
  lemma {:induction false} WalkOrdered(lines: seq<string>, clock: nat -> nat, mins: nat, inputDir: string, files: set<string>)
    requires Monotone(clock)
    ensures var st := Walk(lines, clock, mins, inputDir, files);
            Ordered(st.assets) && StampedBelow(st.assets, Stamp(clock, |lines|))
    decreases |lines|
  {
    if lines != [] {
      var prev := Walk(lines[..|lines| - 1], clock, mins, inputDir, files);
      WalkOrdered(lines[..|lines| - 1], clock, mins, inputDir, files);
      var d := LineDelta(Normalize(lines[|lines| - 1]), Stamp(clock, |lines| - 1), prev.headings, mins, inputDir, files);
      OrderedAppend(prev.assets, d.assets, Stamp(clock, |lines| - 1));
      StampRises(clock, |lines| - 1);
    }
  }

  /** The first two characters of each prefix, which already tell the kinds apart. */
  function Tag(a: Asset): (t: string)
    ensures |t| == 2 && t == Prefix(a)[..2]
  {
    match a
    case Cover(_, _) => "CO"
    case Header(_, _, _) => "HE"
    case Heading(_, _, _) => "H_"
    case QuoteCard(_, _) => "Q_"
    case ImageCopy(_, _, _) => "IM"
  }

  lemma TagDeterminesPrefix(a: Asset, b: Asset)
    ensures Tag(a) == Tag(b) ==> Prefix(a) == Prefix(b)
  {
    if Tag(a) == Tag(b) {
      assert Tag(a)[0] == Tag(b)[0] && Tag(a)[1] == Tag(b)[1];
    }
  }

  /** What follows the digits of a name starts with a dot, or is empty. */
  lemma SuffixStart(a: Asset)
    requires WellFormed(a)
    ensures Suffix(a) == [] || Suffix(a)[0] == '.'
  {
  }

  lemma DropCommonPrefix(p: string, x: string, y: string)
    requires p + x == p + y
    ensures x == y
  {
    assert x == (p + x)[|p|..];
    assert y == (p + y)[|p|..];
  }

  lemma DigitsThenNonDigit(d1: string, e1: string, d2: string, e2: string)
    requires forall i :: 0 <= i < |d1| ==> IsDigit(d1[i])
    requires forall i :: 0 <= i < |d2| ==> IsDigit(d2[i])
    requires e1 == [] || !IsDigit(e1[0])
    requires e2 == [] || !IsDigit(e2[0])
    requires d1 + e1 == d2 + e2
    ensures d1 == d2 && e1 == e2
  {
    var s := d1 + e1;
    assert forall i :: 0 <= i < |d1| ==> IsDigit(s[i]);
    assert forall i :: 0 <= i < |d2| ==> s[i] == (d2 + e2)[i] == d2[i];
    assert |d1| < |s| ==> s[|d1|] == e1[0];
    assert |d2| < |s| ==> s[|d2|] == (d2 + e2)[|d2|] == e2[0];
    assert |d1| == |d2|;
    assert s[..|d1|] == d1 && (d2 + e2)[..|d2|] == d2;
    assert s[|d1|..] == e1 && (d2 + e2)[|d2|..] == e2;
  }

  lemma NameSplit(a: Asset)
    ensures AssetName(a) == Prefix(a) + (NatToString(a.ts) + Suffix(a))
    ensures AssetName(a)[..2] == Tag(a)
  {
    assert AssetName(a) == Prefix(a) + (NatToString(a.ts) + Suffix(a));
  }

  /** Equal names mean equal timestamps and the same kind of asset. */
  lemma NameInjective(a: Asset, b: Asset)
    requires WellFormed(a) && WellFormed(b)
    requires AssetName(a) == AssetName(b)
    ensures a.ts == b.ts && Prefix(a) == Prefix(b)
  {
    NameSplit(a);
    NameSplit(b);
    TagDeterminesPrefix(a, b);
    DropCommonPrefix(Prefix(a), NatToString(a.ts) + Suffix(a), NatToString(b.ts) + Suffix(b));
    SuffixStart(a);
    SuffixStart(b);
    DigitsThenNonDigit(NatToString(a.ts), Suffix(a), NatToString(b.ts), Suffix(b));
    NatToStringInjective(a.ts, b.ts);
  }

  /** With a clock that never runs backwards, every file a run writes has its own name. */
  lemma AssetNamesDistinct(lines: seq<string>, clock: nat -> nat, mins: nat, inputDir: string, files: set<string>)
    requires Monotone(clock)
    ensures var assets := Walk(lines, clock, mins, inputDir, files).assets;
            forall j, k :: 0 <= j < k < |assets| ==> AssetName(assets[j]) != AssetName(assets[k])
  {
    var assets := Walk(lines, clock, mins, inputDir, files).assets;
    WalkOrdered(lines, clock, mins, inputDir, files);
    assert forall k :: 0 <= k < |assets| ==> WellFormed(assets[k]);
    forall j, k | 0 <= j < k < |assets|
      ensures AssetName(assets[j]) != AssetName(assets[k])
    {
      if AssetName(assets[j]) == AssetName(assets[k]) {
        NameInjective(assets[j], assets[k]);
      }
    }
  }

  // ---------------------------------------------------------------------
  // The article title

  /** The text of the last title line, if any. */
  function LastTitle(lines: seq<string>): Option<string>
    decreases |lines|
  {
    if lines == [] then None
    else
      var b := Classify(Normalize(lines[|lines| - 1]));
      if b.Title? then Some(b.text) else LastTitle(lines[..|lines| - 1])
  }

  /** `main_title` is the part before the first `|` of the last title line, or the default when there is none. */
  lemma {:induction false} MainTitleIsLastTitle(lines: seq<string>, clock: nat -> nat, mins: nat, inputDir: string, files: set<string>)
    ensures Walk(lines, clock, mins, inputDir, files).mainTitle ==
            if LastTitle(lines).Some? then Split(LastTitle(lines).value, '|')[0] else UntitledArticle
    decreases |lines|
  {
    if lines != [] {
      MainTitleIsLastTitle(lines[..|lines| - 1], clock, mins, inputDir, files);
    }
  }

  /** Each source line adds at most one line to `new_con`. */
  lemma {:induction false} AtMostOneLinePerLine(lines: seq<string>, clock: nat -> nat, mins: nat, inputDir: string, files: set<string>)
    ensures |Walk(lines, clock, mins, inputDir, files).items| <= |lines|
    decreases |lines|
  {
    if lines != [] {
      AtMostOneLinePerLine(lines[..|lines| - 1], clock, mins, inputDir, files);
    }
  }

  // ---------------------------------------------------------------------
  // Around the loop

  /** The files `main` processes: the one it was given, or every `.md` name in the listing, in listing order. */
  function SelectFiles(target: string, listing: seq<string>): (r: seq<string>)
    ensures target != [] ==> r == [target]
    ensures target == [] ==> forall k :: 0 <= k < |r| ==> EndsWith(r[k], ".md") && r[k] in listing
    ensures target == [] ==> forall f :: f in listing && EndsWith(f, ".md") ==> f in r
    decreases |listing|
  {
    if target != [] then [target]
    else if listing == [] then []
    else
      var rest := SelectFiles(target, listing[..|listing| - 1]);
      var f := listing[|listing| - 1];
      if EndsWith(f, ".md") then rest + [f] else rest
  }

  /** Without a named file, selection keeps the listing's order: a concatenated listing selects its parts' files in turn. */
  lemma {:induction false} SelectFilesAppend(a: seq<string>, b: seq<string>)
    ensures SelectFiles([], a + b) == SelectFiles([], a) + SelectFiles([], b)
    decreases |b|
  {
    if b == [] {
      assert a + b == a;
    } else {
      var n := |b| - 1;
      assert (a + b)[..|a + b| - 1] == a + b[..n];
      assert (a + b)[|a + b| - 1] == b[n];
      SelectFilesAppend(a, b[..n]);
      assert b[..n] + [b[n]] == b;
    }
  }

  /** A one-entry listing selects that entry exactly when it is a `.md` name. */
  lemma SelectFilesSingle(f: string)
    ensures SelectFiles([], [f]) == if EndsWith(f, ".md") then [f] else []
  {
    assert [f][..0] == [];
  }

  /**
   * The files the loop processes: those selected whose path in the input
   * folder exists, in order; a missing one is skipped. `present` is the set
   * of paths that exist.
   */
  function ExistingFiles(files: seq<string>, inputDir: string, present: set<string>): (r: seq<string>)
    ensures forall k :: 0 <= k < |r| ==> r[k] in files && PathJoin(inputDir, r[k]) in present
    ensures forall f :: f in files && PathJoin(inputDir, f) in present ==> f in r
    decreases |files|
  {
    if files == [] then []
    else
      var rest := ExistingFiles(files[..|files| - 1], inputDir, present);
      var f := files[|files| - 1];
      assert forall g :: g in files[..|files| - 1] ==> g in files;
      if PathJoin(inputDir, f) in present then rest + [f] else rest
  }

  /** Skipping missing files keeps the order of the rest. */
  lemma {:induction false} ExistingFilesAppend(a: seq<string>, b: seq<string>, inputDir: string, present: set<string>)
    ensures ExistingFiles(a + b, inputDir, present) == ExistingFiles(a, inputDir, present) + ExistingFiles(b, inputDir, present)
    decreases |b|
  {
    if b == [] {
      assert a + b == a;
    } else {
      var n := |b| - 1;
      assert (a + b)[..|a + b| - 1] == a + b[..n];
      assert (a + b)[|a + b| - 1] == b[n];
      ExistingFilesAppend(a, b[..n], inputDir, present);
      assert b[..n] + [b[n]] == b;
    }
  }

  /** Where one file's results go: `output/<stem>/`, its `assets/`, the rewritten `FINAL_<file>` and the preview. */
  function OutputPaths(outputDir: string, mdFile: string): (string, string, string, string) {
    var outDir := PathJoin(outputDir, Stem(mdFile));
    (outDir, PathJoin(outDir, "assets"), PathJoin(outDir, "FINAL_" + mdFile), PathJoin(outDir, "PREVIEW_" + Stem(mdFile) + ".html"))
  }

  /** The asset folder, the final Markdown and the preview page all lie in the article's own folder. */
  lemma OutputPathsUnder(outputDir: string, mdFile: string)
    ensures var r := OutputPaths(outputDir, mdFile);
      && StartsWith(r.1, r.0) && EndsWith(r.1, "assets")
      && StartsWith(r.2, r.0) && EndsWith(r.2, "FINAL_" + mdFile)
      && StartsWith(r.3, r.0) && EndsWith(r.3, "PREVIEW_" + Stem(mdFile) + ".html")
  {
    var outDir := PathJoin(outputDir, Stem(mdFile));
    var fin, pre := "FINAL_" + mdFile, "PREVIEW_" + Stem(mdFile) + ".html";
    assert fin[0] == 'F' && pre[0] == 'P';
    JoinUnder(outDir, "assets");
    JoinUnder(outDir, fin);
    JoinUnder(outDir, pre);
  }

  /** An asset whose embed line `![](assets/<name>)` the walker may write: not a cover, and a copied image's extension holds no `)` or line feed. */
  predicate EmbedSafe(a: Asset) {
    !a.Cover? && (a.ImageCopy? ==> ')' !in a.ext && '\n' !in a.ext)
  }

  /** A file name, a fixed prefix, digits and a fixed or safe suffix, holds no `)` or line feed. */
  lemma AssetNameSafe(a: Asset)
    requires a.ImageCopy? ==> ')' !in a.ext && '\n' !in a.ext
    ensures ')' !in AssetName(a) && '\n' !in AssetName(a)
  {
    var d := NatToString(a.ts);
    assert ')' !in d && '\n' !in d by {
      assert forall k :: 0 <= k < |d| ==> IsDigit(d[k]);
    }
    var pre, suf := Prefix(a), Suffix(a);
    assert ')' !in pre && '\n' !in pre && ')' !in suf && '\n' !in suf;
    assert AssetName(a) == pre + d + suf;
  }

  /** The three shapes of embed text, each around the embed line `![](assets/<n>)`. */
  lemma EmbedShapes(n: string)
    ensures var x := "![](" + ("assets/" + n) + ")";
      && "![](assets/" + n + ")\n\n" == [] + x + "\n\n"
      && "![](assets/" + n + ")\n" == [] + x + "\n"
      && "\n![](assets/" + n + ")\n" == "\n" + x + "\n"
  {
  }

  /** The text the walker writes for an embed: the embed line, with the line feeds around it. */
  lemma EmbedText(a: Asset)
    requires !a.Cover?
    ensures var x := "![](" + ("assets/" + AssetName(a)) + ")";
      RenderItem(Embed(a)) == if a.Header? then [] + x + "\n\n" else if a.ImageCopy? then [] + x + "\n" else "\n" + x + "\n"
  {
    EmbedShapes(AssetName(a));
  }

  /** An embed line `![](p)` is non-empty and has no white space at either end. */
  lemma EmbedLineStripped(p: string)
    ensures var x := "![](" + p + ")"; x != [] && Stripped(x)
  {
    var x := "![](" + p + ")";
    assert x[0] == '!' && x[|x| - 1] == ')';
  }

  /** Stripped, the text written for an embed is its embed line. */
  lemma EmbedTextStripped(a: Asset)
    requires !a.Cover?
    ensures Strip(RenderItem(Embed(a))) == "![](" + ("assets/" + AssetName(a)) + ")"
  {
    var x := "![](" + ("assets/" + AssetName(a)) + ")";
    EmbedLineStripped("assets/" + AssetName(a));
    var before: string := if a.Header? || a.ImageCopy? then [] else "\n";
    var after: string := if a.Header? then "\n\n" else "\n";
    assert RenderItem(Embed(a)) == before + x + after by {
      EmbedText(a);
    }
    StripSurrounded(before, x, after);
  }

  /** A character missing from a string is missing from each of its suffixes. */
  lemma SuffixLacks(s: string, e: string, c: char)
    requires EndsWith(s, e) && c !in s
    ensures c !in e
  {
  }

  /** A tail of `q/b` longer than `b` takes in the `/`. */
  lemma SlashBeforeTail(q: string, b: string, e: string)
    requires EndsWith(q + "/" + b, e) && |e| > |b|
    ensures '/' in e
  {
    var p := q + "/" + b;
    assert e[|e| - |b| - 1] == p[|p| - |b| - 1] == '/';
  }

  /** A tail of `os.path.join(a, b)` without `/` is a tail of `b`: the join puts `/` before a relative `b`. */
  lemma SlashFreeTailOfJoin(a: string, b: string, e: string)
    requires EndsWith(PathJoin(a, b), e) && '/' !in e
    ensures EndsWith(b, e)
  {
    var p := PathJoin(a, b);
    if StartsWith(b, "/") || a == [] {
      assert p == b;
    } else {
      var q := if a[|a| - 1] == '/' then a[..|a| - 1] else a;
      assert p == q + "/" + b;
      assert |e| <= |b| by {
        if |e| > |b| {
          SlashBeforeTail(q, b, e);
          assert false;
        }
      }
      assert p[|p| - |e|..] == b[|b| - |e|..];
    }
  }

  /** A tail of a tail is a tail. */
  lemma EndsWithTrans(s: string, t: string, e: string)
    requires EndsWith(s, t) && EndsWith(t, e)
    ensures EndsWith(s, e)
  {
    assert s[|s| - |e|..] == s[|s| - |t|..][|t| - |e|..];
  }

  /** Every path the image line probes ends in an extension taken from the `(...)` group `src`. */
  lemma CandidateExt(src: string, inputDir: string, p: string)
    requires p in ImageCandidates(src, inputDir)
    ensures EndsWith(src, Ext(p))
  {
    var e := Ext(p);
    assert EndsWith(p, e) && '/' !in e;
    var b := Basename(src);
    if p == PathJoin(inputDir, src) {
      SlashFreeTailOfJoin(inputDir, src, e);
    } else if p == PathJoin(inputDir, b) {
      SlashFreeTailOfJoin(inputDir, b, e);
      EndsWithTrans(src, b, e);
    }
  }

  /** A copied image's extension comes from the line's `(...)` group, so every embed an image line writes is well delimited. */
  lemma ImageCopiesEmbedSafe(l: string, ts: nat, inputDir: string, files: set<string>)
    ensures var d := ImageDelta(l, ts, inputDir, files);
      forall k :: 0 <= k < |d.assets| ==> EmbedSafe(d.assets[k])
  {
    var g := ParenGroup(l);
    if g.Some? {
      var src := g.value;
      var found := FirstExisting(ImageCandidates(src, inputDir), files);
      if found.Some? {
        CandidateExt(src, inputDir, found.value);
        SuffixLacks(src, Ext(found.value), ')');
        SuffixLacks(src, Ext(found.value), '\n');
      }
    }
  }

  /** Every copied image among `assets` has an extension free of `)` and line feeds. */
  predicate CopiesSafe(assets: seq<Asset>) {
    forall k :: 0 <= k < |assets| && assets[k].ImageCopy? ==> ')' !in assets[k].ext && '\n' !in assets[k].ext
  }

  lemma BlockCopiesSafe(b: Block, ts: nat, headings: nat, mins: nat, inputDir: string, files: set<string>)
    ensures CopiesSafe(BlockDelta(b, ts, headings, mins, inputDir, files).assets)
  {
    if b.ImageRef? {
      ImageCopiesEmbedSafe(b.line, ts, inputDir, files);
    }
  }

  /** Every copied image a walk writes has a well-delimited extension. */
  lemma {:induction false} WalkCopiesSafe(lines: seq<string>, clock: nat -> nat, mins: nat, inputDir: string, files: set<string>)
    ensures CopiesSafe(Walk(lines, clock, mins, inputDir, files).assets)
    decreases |lines|
  {
    if lines != [] {
      var n := |lines| - 1;
      var prev := Walk(lines[..n], clock, mins, inputDir, files);
      WalkCopiesSafe(lines[..n], clock, mins, inputDir, files);
      var line := Normalize(lines[n]);
      var d := LineDelta(line, Stamp(clock, n), prev.headings, mins, inputDir, files);
      BlockCopiesSafe(Classify(line), Stamp(clock, n), prev.headings, mins, inputDir, files);
      var all := prev.assets + d.assets;
      assert forall k :: 0 <= k < |all| ==> all[k] == if k < |prev.assets| then prev.assets[k] else d.assets[k - |prev.assets|];
    }
  }

  /** The files that are not covers, among files whose copies are well delimited, are all safe to embed. */
  lemma {:induction false} NonCoversSafe(assets: seq<Asset>)
    requires CopiesSafe(assets)
    ensures forall k :: 0 <= k < |NonCovers(assets)| ==> EmbedSafe(NonCovers(assets)[k])
    decreases |assets|
  {
    if assets != [] {
      var n := |assets| - 1;
      assert CopiesSafe(assets[..n]);
      NonCoversSafe(assets[..n]);
      var r, rest := NonCovers(assets), NonCovers(assets[..n]);
      assert r == rest + (if assets[n].Cover? then [] else [assets[n]]);
    }
  }

  /**
   * Every asset the walk embeds is safe to embed: not a cover, and, for a
   * copied image, an extension free of `)` and line feeds.
   */
  lemma WalkEmbedsSafe(lines: seq<string>, clock: nat -> nat, mins: nat, inputDir: string, files: set<string>)
    ensures var e := Embedded(Walk(lines, clock, mins, inputDir, files).items);
      forall k :: 0 <= k < |e| ==> EmbedSafe(e[k])
  {
    var st := Walk(lines, clock, mins, inputDir, files);
    EmbedsAreNonCovers(lines, clock, mins, inputDir, files);
    WalkCopiesSafe(lines, clock, mins, inputDir, files);
    NonCoversSafe(st.assets);
  }
}
