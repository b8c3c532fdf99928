# WriterStudio core, modelled in Dafny

WriterStudio turns a Markdown article into a set of image cards plus a
rewritten Markdown file:
- a cover, a header, numbered section cards and quote cards;
- copies of the images the article refers to;
- an HTML preview.

It can then publish the result as a WeChat draft or as a post for a local
Next.js blog. A small web service and a Tk editor sit in front of it.

This project models the logic that decides what gets produced, and proves
properties of it:

- **Text normalisation** (`app.py`): `auto_format_text` and `process_text_lines`.
- **The generator** (`app.py`): `main`'s line walker, the shrink-to-fit font loops,
  the card heights, the theme selection (`set_style`) and the HTML preview.
- **The WeChat publisher** (`publisher.py`): Markdown to WeChat HTML, asset
  routing and draft assembly.
- **The blog publisher** (`blog_publisher.py`): `safe_filename`, the slug, the
  excerpt and the front matter.
- **The web service** (`web.py`): session folders, request names, feature-image
  naming, the upload route and Obsidian embed rewriting.
- **The editor** (`WriterStudio_GUI.py`): `format_text`, `extract_markdown`,
  `clean_notion_spacing`, the pasted-image counter and the console redirector.

The model has one module per concern:

| module | file | what it holds |
|---|---|---|
| `Wrappers` | wrappers.dfy | `Option` and `Result` |
| `Strings` | strings.dfy | Python's `strip`, `split`, `replace`, `splitlines`, `str(n)` and `lower` on `seq<char>` |
| `Paths` | paths.dfy | POSIX `os.path.join`, `basename`, `splitext` (only `/` separates; no drive letters) and the probing loops that find the first existing file |
| `Markup` | markup.dfy | the two regular expressions of the preview: `\((.*?)\)` and `\*\*(.+?)\*\*` |
| `TextNormalizer` | text_normalizer.dfy | `auto_format_text`, `process_text_lines` and the reading-time estimate |
| `AppState` | app_state.dfy | the module-level `THEMES`, `STYLE` and `SPECIFIC_FEATURE` as a class with `set_style`, `main`'s author substitution and the header's feature lookup |
| `Layout` | layout.dfy | the shrink-to-fit loops and the height and position formulas of the cards |
| `Walker` | walker.dfy | `main`'s loop over the lines of an article, as a function (`Walk`) and as the imperative loop proved against it (`Generate`) |
| `Preview` | preview.dfy | `export_html_preview` |
| `WeChat` | wechat.dfy | `WeChatPublisher`: the token, uploads, `md_to_wechat_html` and `publish_draft` |
| `Blog` | blog.dfy | `publish_to_blog` |
| `Web` | web.dfy | the Flask routes' path and name logic |
| `Editor` | editor.dfy | the editor's text operations, `RichTextEditor`'s image numbering and `TextRedirector` |

The outside world enters the model only as parameters:
- the set of files that exist;
- the text widths and line heights PIL would measure;
- the clock readings;
- the answers of the WeChat API.

`main` assigns `main_title` on every `# ` line, so the last title line wins
(app.py:415); `Walker.MainTitleIsLastTitle` states this.

## Model

| member | source | states |
|---|---|---|
| Strings.Strip | app.py:410 | the result has no white space at either end, is no longer than the input, and is empty exactly when the input is blank |
| Strings.StripIdempotent | app.py:410 | stripping twice is stripping once |
| Strings.Split | app.py:415 | `split` on one character gives at least one part, and no part holds the separator |
| Strings.SplitJoin | WriterStudio_GUI.py:302-303 | joining the parts of a split with the separator gives back the text |
| Strings.JoinSplit | WriterStudio_GUI.py:302-303 | splitting a join of separator-free parts gives back the parts |
| Strings.SplitLines | app.py:406 | `splitlines` gives lines free of line boundaries, and gives none exactly when the text is empty |
| Strings.SplitLinesNoBreak | app.py:406 | a non-empty text with no line boundary is one line |
| Strings.SplitLinesCons | app.py:406 | a line ended by `\r\n` or by one boundary character (a `\r` not followed by `\n`) is the first line, and splitting goes on after its ending |
| Strings.SplitLinesOfJoin | app.py:406 | joining boundary-free lines, the last non-empty, with `\n` and splitting again gives the lines back |
| Strings.NatToString | app.py:417-418 | `str(n)` is a non-empty string of decimal digits |
| Strings.DigitsRoundTrip | app.py:418 | reading back `str(n)` gives `n` |
| Strings.NatToStringInjective | app.py:418 | distinct numbers have distinct decimal renderings |
| Strings.Lower | web.py:212 | lower-casing keeps the length, turns each `A`..`Z` into the matching `a`..`z`, leaves no upper-case ASCII letter and changes nothing else |
| Paths.PathJoinParts | app.py:201 | `os.path.join(a, b)` ends with `b`, and starts with `a` unless `b` is absolute |
| Paths.JoinUnder | app.py:401-402 | a relative name joined under a folder lies under that folder |
| Paths.Basename | app.py:436 | the base name holds no `/`, ends the path, and is preceded by `/` when it is not the whole path |
| Paths.BasenameOfJoin | app.py:436 | a single component joined under a folder is the base name of the result |
| Paths.Ext | app.py:440 | the extension ends the path and is empty or a dot followed by no `/` and no other dot |
| Paths.ExtOfName | app.py:440 | the extension of `dir/name.x`, for a name that is not all dots and an `x` with no dot or `/`, is `.x` |
| Paths.Stem | app.py:400 | stem followed by extension is the path |
| Paths.FirstExisting | app.py:204-207 | the result is a candidate that exists, and is `None` exactly when no candidate exists |
| Paths.FindExisting | app.py:438-445 | the probing loop returns the first existing candidate |
| Paths.FirstOfThree | web.py:359-369 | for three folders, the first one holding the file is used |
| Paths.FirstExistingAt | app.py:438-445 | the candidate found is preceded only by missing candidates |
| TextNormalizer.MapQuotes | app.py:104-105 | `“` becomes `「` and `”` becomes `」` in place; no other character changes and none is added |
| TextNormalizer.SpaceAfterCjkSeparates | app.py:106 | after the first substitution no ideograph is directly followed by an ASCII letter or digit |
| TextNormalizer.SpaceAfterCjkFixed | app.py:106 | text already separated is left unchanged |
| TextNormalizer.SpaceAfterCjkQuotes | app.py:106 | the substitution brings in no curly quote |
| TextNormalizer.SpaceBeforeCjkSeparates | app.py:107 | after the second substitution no ASCII letter or digit is directly followed by an ideograph |
| TextNormalizer.SpaceBeforeCjkKeeps | app.py:106-107 | the second substitution does not undo the first |
| TextNormalizer.SpaceBeforeCjkFixed | app.py:107 | text already separated is left unchanged |
| TextNormalizer.SpaceBeforeCjkQuotes | app.py:107 | the substitution brings in no curly quote |
| TextNormalizer.SpaceAfterCjkOnlySpaces | app.py:106 | the first substitution only inserts spaces: with spaces deleted, the text is unchanged |
| TextNormalizer.SpaceBeforeCjkOnlySpaces | app.py:107 | the second substitution only inserts spaces: with spaces deleted, the text is unchanged |
| TextNormalizer.AutoFormatOnlySpaces | app.py:104-108 | with spaces deleted, the normalised text is the text with its curly quotes mapped |
| TextNormalizer.AutoFormat | app.py:104-108 | the normalised text has no curly quotes and no ideograph touching an ASCII letter or digit, in either order |
| TextNormalizer.AutoFormatIdempotent | app.py:104-108 | normalising twice is normalising once |
| TextNormalizer.AutoFormatFixed | app.py:104-108 | text already normalised is left unchanged |
| TextNormalizer.NonEmptyStripped | app.py:111 | the kept parts are non-empty and trimmed, and parts that already are so are all kept |
| TextNormalizer.NonEmptyStrippedOne | app.py:111 | one part is dropped when blank and otherwise kept trimmed |
| TextNormalizer.NonEmptyStrippedAppend | app.py:111 | the filter works part by part, in order |
| TextNormalizer.NonEmptyStrippedAll | app.py:111 | when no part is blank, every part is kept, trimmed, in its place |
| TextNormalizer.NonEmptyStrippedSkip | app.py:111 | a blank part is dropped and changes nothing else |
| TextNormalizer.PipeSegments | app.py:111 | every segment is non-empty, trimmed and free of `\|` |
| TextNormalizer.PipeSegmentsOfParts | app.py:111 | splitting parts joined with `\|` gives the parts trimmed, with the blank ones dropped |
| TextNormalizer.PipeSegmentsPadded | app.py:111 | for `\|`-free parts none of which is blank, segment `i` is part `i` trimmed, and there are as many segments as parts |
| TextNormalizer.PipeSegmentsBlankDropped | app.py:111 | a blank part between two `\|` gives no segment |
| TextNormalizer.PipeSegmentsOfJoin | app.py:111 | joining clean segments with `\|` and splitting again gives them back |
| TextNormalizer.ProcessTextLines | app.py:110-112 | with a `\|` the lines are clean segments; otherwise the lines are what `textwrap.wrap` gives, none longer than `max_chars` |
| TextNormalizer.ProcessTextLinesPiped | app.py:110-112 | text of two or more `\|`-joined parts becomes the parts trimmed, blank ones dropped, without wrapping |
| TextNormalizer.ReadTimeMinutes | app.py:399 | at least one minute, and for a non-empty text `400(m-1) < n <= 400m` |
| AppState.SecondRunKeepsFirstAuthor | app.py:375-376 | once an author without the placeholder is substituted, a later substitution keeps the first author |
| AppState.Globals.constructor | app.py:26-80 | the state at import: the three themes, `black_gold` selected, no specific feature |
| AppState.Globals.SetStyle | app.py:82-88 | an unknown name falls back to `black_gold`, and the selected entry of `THEMES` itself gets width 1080 |
| AppState.Globals.ConfigureRun | app.py:369-377 | the theme is set, and the author is substituted into the shared theme entry, which persists |
| AppState.Globals.SetSpecificFeature | app.py:16-18 | the global feature name is set; themes and style are unchanged |
| AppState.Globals.HeaderFeature | app.py:199-207 | the header clears the global name and finds the first existing fixed candidate |
| AppState.TwoRuns | app.py:375-376 | after two runs with different authors, the default theme shows the first author |
| AppState.NamedFeatureIgnored | app.py:149-151 | naming a feature image does not change what the header finds, because line 151 clears the name before lines 199-207 read it |
| Layout.ShrinkToFit | app.py:135-137 | the size stops at the first step that fits or reaches the floor; every earlier size was too wide and above the floor |
| Layout.CoverTitleSize | app.py:131-137 | the cover title size lies between 60 and the theme's size and fits inside the margins unless it is 60 |
| Layout.HeaderTitleSizes | app.py:171-186 | the header's title size stays between 40 and the theme's size and fits unless at 40; the subtitle shrinks only when there is a subtitle, between 24 and the theme's size, fitting unless at 24 |
| Layout.EvenStepsStayAboveFloor | app.py:172-174 | steps of 2 from an even size never go below an even floor |
| Layout.TextBlockAppend | app.py:261 | one more line adds its own height plus one gap to the block's height |
| Layout.LineTops | app.py:277-280 | line `k` is drawn at the top plus the heights and gaps of the lines before it; the last line ends at the block's height |
| Layout.HeadingTextFits | app.py:257-281 | the last title line of a section card ends exactly `h_padding_bottom` above the bottom of the canvas |
| Layout.QuoteWrapWidthOfThemes | app.py:289 | every built-in theme wraps quotes at 18 characters |
| Layout.QuoteLinesOfThemes | app.py:289 | under a built-in theme, a quote without `\|` is drawn in lines of at most 18 characters |
| Layout.QuoteTextTop | app.py:309 | the quote text is centred vertically: `q_deco_gap` above and below |
| Layout.QuoteLineAlignment | app.py:311 | attribution lines end `q_padding_x + 20` from the right edge; other lines are centred to within a pixel |
| Markup.CloseParen | app.py:351 | a match is the text before the first `)`, with no line feed in it; without a match, a line feed precedes every `)` |
| Markup.ParenGroup | app.py:351 | the group found holds no `)` or line feed and appears in parentheses in the line |
| Markup.ParenGroupNone | app.py:351-352 | when nothing is found, every `(` ... `)` pair has a line feed between them |
| Markup.ParenGroupOfEmbed | app.py:433-435 | the path of an embed line `![](x)` is `x` |
| Markup.BoldEnd | app.py:359 | the closing `**` is found at or after the lengths already tried |
| Markup.BoldSubPlain | app.py:359 | text without `**` is left unchanged |
| Markup.BoldSubWrap | publisher.py:132-134 | `**x**` becomes the opening markup, `x`, the closing markup, and the rest is substituted in turn |
| Walker.TitleDelta | app.py:413-420 | a title line writes at most a cover and a header with the line's stamp, embeds no cover, and sets the title |
| Walker.CardDelta | app.py:421-431 | a section or quote line writes its one card and embeds it |
| Walker.ImageDelta | app.py:432-446 | an image line writes at most one copied image and embeds no cover |
| Walker.BlockDelta | app.py:413-448 | every line writes at most two files, all with its stamp, and counts a section only for a section line |
| Walker.LineDelta | app.py:409-448 | one iteration adds at most one line, never embeds a cover, and changes the title only on a title line |
| Walker.Walk | app.py:406-448 | the walk never embeds a cover |
| Walker.ProcessLine | app.py:410-448 | one iteration of the loop appends, writes and counts what the line's delta says |
| Walker.ProcessTitle | app.py:413-420 | the title branch appends and writes what the title delta says |
| Walker.ProcessCard | app.py:421-431 | the card branches append and write what the card delta says |
| Walker.ProcessImage | app.py:432-446 | the image branch appends and writes what the image delta says |
| Walker.Generate | app.py:406-448 | the loop's `new_con`, `h_cnt`, `main_title` and files written equal those of the walk |
| Walker.EmbedsAreNonCovers | app.py:413-448 | `new_con` embeds exactly the files written that are not covers, once each and in order |
| Walker.TitleLine | app.py:413-420 | a title line with text embeds its header and writes its cover and header |
| Walker.BlankLine | app.py:447-448 | a blank line becomes a lone line feed |
| Walker.ImageLineCopies | app.py:433-445 | an image line copies the first existing candidate, keeping its extension |
| Walker.ImageLineKept | app.py:446 | with no existing candidate, the image line passes through unchanged |
| Walker.ImageLineDropped | app.py:433-434 | an image line without `(...)` is dropped |
| Walker.HeadingNumbersConsecutive | app.py:421-426 | section cards are numbered 1 up to `h_cnt`, in order |
| Walker.StampRises | app.py:411 | with a clock that never runs backwards, each line's stamp is above the previous one |
| Walker.WalkOrdered | app.py:411-446 | files are written in stamp order, and only a cover and its header share a stamp |
| Walker.NameInjective | app.py:417-441 | equal file names mean the same stamp and the same kind of file |
| Walker.AssetNamesDistinct | app.py:411 | every file a run writes has its own name |
| Walker.MainTitleIsLastTitle | app.py:407-415 | `main_title` is the text before the first `\|` of the last title line, or the default when there is no title line |
| Walker.AtMostOneLinePerLine | app.py:409-448 | each source line adds at most one line to `new_con` |
| Walker.WalkHeadersRead | app.py:419 | every header a run draws shows the run's reading time |
| Walker.DocumentShape | app.py:397-406 | a file's run over `full_text.splitlines()`: an empty file writes nothing and keeps the default title; otherwise `new_con` has at most one entry per line, and every header shows m minutes with m >= 1 and `400(m-1) < len(full_text) <= 400m` |
| Walker.SelectFiles | app.py:384-387 | a named file is processed alone; otherwise exactly the listing's `.md` files |
| Walker.SelectFilesAppend | app.py:387 | without a named file, selection keeps the listing's order: the files of a concatenated listing are those of its first part, then those of its second |
| Walker.SelectFilesSingle | app.py:387 | a one-entry listing gives that entry exactly when it ends in `.md` |
| Walker.ExistingFiles | app.py:391-395 | the files processed are those selected whose path in the input folder exists, in the same order |
| Walker.ExistingFilesAppend | app.py:391-395 | skipping missing files keeps the order of the files that remain |
| Walker.OutputPathsUnder | app.py:400-404 | the asset folder, the final Markdown and the preview all lie in the article's own output folder |
| Walker.AssetNameSafe | app.py:417-443 | a card's file name, or a copied image's whose extension has none, holds no `)` or line feed |
| Walker.EmbedText | app.py:420-443 | the header embed is followed by a blank line, a copied image's by one line feed; other cards stand on a line of their own |
| Walker.EmbedTextStripped | app.py:420-443 | stripped, the text of any embed the walker writes is its embed line `![](assets/<name>)` |
| Walker.ImageCopiesEmbedSafe | app.py:433-443 | a copied image's extension is a tail of the line's `(...)` group, so it holds no `)` or line feed |
| Walker.WalkCopiesSafe | app.py:432-443 | every image a walk copies keeps an extension, taken from the line's `(...)` group, that holds no `)` or line feed |
| Walker.WalkEmbedsSafe | app.py:417-443 | every asset a walk embeds is not a cover, and a copied image among them has an extension free of `)` and line feeds |
| Walker.CandidateExt | app.py:436-440 | the extension of every probed path is a tail of the `(...)` group, whichever of the three candidates it is |
| Preview.Fragments | app.py:345-360 | the page has at most one fragment per line |
| Preview.LineFragment | app.py:346-360 | one pass of the loop appends that line's fragment |
| Preview.CollectFragments | app.py:345-360 | the loop collects the fragments of all lines, in order |
| Preview.PreviewFile | app.py:363 | the page lies under the output folder and, for a folder name without `/`, is the file `PREVIEW_<folder>.html` directly in it |
| Preview.ExportPreview | app.py:320-365 | the page is the head, the fragments and the closing tags joined by line feeds |
| Preview.FragmentsAppend | app.py:345-360 | the page of two texts is the concatenation of their pages |
| Preview.BlankLineSkipped | app.py:346-347 | blank lines add nothing to the page |
| Preview.TextFragment | app.py:357-360 | a text line becomes a paragraph with its bold runs replaced |
| Preview.ImageFragment | app.py:349-356 | an image line becomes the `<img>` of its first parenthesised path, or nothing |
| Preview.PlainTextParagraph | app.py:359-360 | a text line without `**` becomes a paragraph holding the line unchanged |
| Preview.BoldParagraph | app.py:359 | a line that is one bold run becomes a paragraph with one bold span |
| Preview.FragmentOfStrip | app.py:346 | only the stripped line decides its fragment |
| Preview.EmbedLineFragment | app.py:349-356 | an embed line `![](p)` becomes one `<img>` of `p` |
| Preview.EmbedPreviewed | app.py:349-356 | an embed that is safe to embed (no cover; a copied image's extension free of `)` and line feeds) reaches the preview as the `<img>` of its `assets/` path |
| Preview.WalkEmbedsPreviewed | app.py:349-356 | every asset a walk embeds, cards and copied images alike, is safe to embed and reaches the preview as the `<img>` of its `assets/` path |
| WeChat.AccessToken | publisher.py:84-99 | no token without both credentials; otherwise the API's answer |
| WeChat.StyleFor | publisher.py:150-153 | the image style is chosen by `HEADER`, then `FOOTER`, then `H_`, each as an if-and-only-if |
| WeChat.LayoutPlaces | publisher.py:161-177 | a text piece is the lead paragraph exactly when no text piece came before it |
| WeChat.LeadOnce | publisher.py:161-175 | an article has one lead paragraph if it has any text, and none otherwise |
| WeChat.ImageLine | publisher.py:144-154 | an image line yields an image exactly when its path has a non-empty URL, styled by its path |
| WeChat.TextLine | publisher.py:155-159 | a text line yields its cleaned text, or nothing when cleaning empties it |
| WeChat.BlankLineDropped | publisher.py:141-142 | blank lines contribute nothing |
| WeChat.CleanPlain | publisher.py:156 | text without `#` or `>` is left unchanged |
| WeChat.CleanHeadingOne | publisher.py:156 | `# T` and `> T` lose their marker |
| WeChat.CleanHeadingTwo | publisher.py:156 | `## T` becomes `#T`, because the `# ` inside it is removed first |
| WeChat.HashSpaceInside | publisher.py:156 | removing `# ` from `## t` leaves `#t` |
| WeChat.HashLineKept | publisher.py:156 | the two later removals leave `#t` unchanged |
| WeChat.EmbedPublished | publisher.py:144-154 | an embed that is safe to embed reaches the article as one image when its upload gave a URL |
| WeChat.WalkEmbedsPublished | publisher.py:144-154 | every asset a walk embeds, cards and copied images alike, is safe to embed and reaches the article as one image when its upload gave a URL |
| WeChat.EmbedLinePiece | publisher.py:144-154 | an embed line whose path has a URL yields that URL's image |
| WeChat.JpegNotEligible | publisher.py:199 | a `.jpeg` file is never uploaded |
| WeChat.UploadResult | publisher.py:101-102 | a missing file gives no URL |
| WeChat.RouteKeys | publisher.py:197-209 | the URL map has one key per eligible non-cover file whose upload gave a URL, and every URL is non-empty |
| WeChat.RouteThumb | publisher.py:197-205 | the thumbnail is the upload result of the LAST eligible `COVER` file, failed or not, since each such file overwrites it |
| WeChat.RouteNoThumb | publisher.py:195-205 | without an eligible `COVER` file there is no thumbnail |
| WeChat.RouteUrls | publisher.py:197-209 | each key of the URL map holds the URL of the last successfully uploaded body image with that key; a failed upload does not overwrite it |
| WeChat.ConvertLine | publisher.py:140-177 | one pass appends the line's block and clears the lead flag after the first text |
| WeChat.ConvertLines | publisher.py:137-178 | the loop's body is the HTML of the laid-out pieces of all lines |
| WeChat.WeChatPublisher.constructor | publisher.py:77-82 | the credentials are stored and the token fetched |
| WeChat.WeChatPublisher.UploadImage | publisher.py:101-126 | a missing file is never sent; otherwise the endpoint's answer |
| WeChat.WeChatPublisher.MdToWechatHtml | publisher.py:128-179 | the HTML is the article's HTML for the URL map and the styles |
| WeChat.WeChatPublisher.RouteAssets | publisher.py:194-209 | the walk's thumbnail and URL map are those of the routing function |
| WeChat.WeChatPublisher.RouteEntry | publisher.py:199-209 | one file: ignored unless eligible; a COVER file's upload result, even a failed one, replaces the thumbnail; any other file is added to the map only when its upload gives a URL |
| WeChat.WeChatPublisher.PublishDraft | publisher.py:181-228 | nothing is posted without the final Markdown file or a token; otherwise the article built from the routed assets |
| WeChat.WeChatPublisher.SourcePath | publisher.py:182-184 | the Markdown file lies in the article's own folder, and for a plain folder name directly in it as `FINAL_<folder>.md`, under the output directory |
| WeChat.TitleOfMarkdownName | publisher.py:217 | the draft's title is the folder name without `.md` |
| Blog.Padded | blog_publisher.py:25 | a padded field has exactly its width, in digits |
| Blog.PaddedRoundTrip | blog_publisher.py:25 | a number below `10^w` is read back from its padded digits |
| Blog.StampRoundTrip | blog_publisher.py:34 | the clock stamp is 14 digits from which the reading is recovered |
| Blog.DateTextShape | blog_publisher.py:25 | the date is `YYYY-MM-DD` |
| Blog.Sanitize | blog_publisher.py:98 | every ASCII letter or digit, `-` and ideograph in `一-龥` stays in its place and every other character becomes `_` |
| Blog.SafeFilenameChars | blog_publisher.py:98 | a safe name holds only kept characters and inner underscores |
| Blog.SafeFilenameSlice | blog_publisher.py:98 | a safe name is the sanitised text with only underscores cut from its ends |
| Blog.SanitizeKeeps | blog_publisher.py:98 | text of kept characters is its own sanitised form |
| Blog.SafeFilenameIdempotent | blog_publisher.py:98 | `safe_filename` is idempotent |
| Blog.SafeFilenameNoSeparator | blog_publisher.py:98 | a safe name holds no `/`, `\` or `.` |
| Blog.SlugOfLetters | blog_publisher.py:32 | a title of ASCII letters is its own slug |
| Blog.SlugFromTitle | blog_publisher.py:30-34 | without a custom slug, the slug is the safe title, or the clock stamp when that is empty; it is never empty |
| Blog.SlugCustomEmpty | blog_publisher.py:27-28 | any non-empty custom slug is used, sanitised, whatever the title; one without a kept character gives the file name `.md` |
| Blog.SlugNoSeparator | blog_publisher.py:27-37 | no slug holds a `/` |
| Blog.DropMarks | blog_publisher.py:40 | no mark character is left, and every character left was in the text |
| Blog.DropMarksCounts | blog_publisher.py:40 | every mark character is deleted and every other character keeps its number of occurrences |
| Blog.DropMarksAppend | blog_publisher.py:40 | deleting marks works piecewise |
| Blog.DropMarksPlain | blog_publisher.py:40 | text without marks is kept whole |
| Blog.Prefix | blog_publisher.py:40 | `s[:n]` is a prefix of length `min(n, len(s))` |
| Blog.ExcerptShape | blog_publisher.py:40 | the excerpt is one line of at most 153 characters, free of marks, ending in `...` |
| Blog.ExcerptText | blog_publisher.py:40 | the text before `...` has at most 150 characters and no line feed or mark |
| Blog.OneLineUnmarked | blog_publisher.py:40 | the cut text, before stripping, has at most 150 characters and no line feed or mark |
| Blog.ExcerptOfPlain | blog_publisher.py:40 | a short, trimmed, single-line text without marks is its own excerpt, plus `...` |
| Blog.FrontmatterLines | blog_publisher.py:43-51 | with one-line fields, the front matter's lines are the fields in order, the closing `---` and a blank line |
| Blog.PublishToBlog | blog_publisher.py:21-22 | publishing fails exactly when the posts folder is missing |
| Blog.PostsCollide | blog_publisher.py:36-56 | two posts are written to the same file exactly when their slugs agree, so the later one overwrites the earlier |
| Blog.PublishedPost | blog_publisher.py:36-56 | a post lies directly in the posts folder under its slug, and holds the content unchanged after the front matter |
| Web.SafeId | web.py:76 | the sanitised id is no longer than the input and holds only alphanumerics, `-` and `_` |
| Web.SafeIdAppend | web.py:76 | the id of two pieces is the ids of the pieces |
| Web.SafeIdKeeps | web.py:76 | an id of kept characters is kept whole |
| Web.SafeIdCounts | web.py:76 | every kept character survives, as often as in the input |
| Web.SafeIdNoTraversal | web.py:75-76 | a sanitised id holds no `/`, `\` or `.` |
| Web.SessionPathsShape | web.py:71-78 | without an id, the local folders; otherwise `input` and `output` directly in `temp_sessions/<safe id>` |
| Web.RequestNameDefault | web.py:100-104 | a missing or blank name gives the default; any other name is used stripped |
| Web.SessionDir | web.py:101-108 | the session id is stripped before `get_session_paths`, so a missing or blank id selects the local `input` folder |
| Web.GenerateTargetShape | web.py:100-114 | the Markdown file is `<name>.md` in the stripped session's input folder (the local one for a blank id); its base name is the stripped name or `untitled`, and an absolute name, being unchecked, is written at that path |
| Web.PublishLetterTitle | web.py:229-235 | a name of ASCII letters is published as `<name>.md` in the posts folder |
| Web.PublishBlogUntitled | web.py:230-235 | without a name, the post is `Untitled.md` |
| Web.FeatureFound | web.py:210-219 | every feature upload is one of the names the header probes |
| Web.FeatureKeepsExtension | web.py:210-215 | a `.png`, `.jpg` or `.jpeg` extension, of any case, is kept; any other becomes `.png` |
| Web.OlderPngFeatureWins | web.py:210-219 | after a `.jpg` feature upload into a folder holding `feature.png`, the header still finds the PNG |
| Web.UploadImage | web.py:193-220 | an upload fails exactly when no file or no name was sent |
| Web.SessionInputUnder | web.py:71-78 | every session's input folder, and the local fallback, lies under the application folder |
| Web.UploadEscapes | web.py:217-219 | in any session's input folder, an absolute client name is saved at that very path, so a name outside the application folder lands outside the input folder |
| Web.UploadImageGuarded | web.py:193-220 | with the guard, an upload also fails for a name that could leave the folder |
| Web.UploadStaysInFolder | web.py:216-219 | with the guard, every upload lands in the input folder under the name reported |
| Web.FeatureNameNoSlash | web.py:215 | a feature name holds no `/` |
| Web.EmbedAt | web.py:353 | a matched embed name holds no `]`, is an image name, and is what the text starts with between `![[` and `]]` |
| Web.PlainKept | web.py:386 | text without `!` passes through |
| Web.ScanPlain | web.py:386 | where no embed starts, the scan copies one character and moves on |
| Web.EmbedOf | web.py:353 | an embed `![[name]]` is matched exactly when the name is an image name |
| Web.EmbedReplaced | web.py:371-377 | an image embed is replaced and the scan goes on after it |
| Web.NonImageKept | web.py:386 | an embed of anything but an image is kept verbatim |
| Web.ReplacementCases | web.py:359-383 | the first of three folders holding the image is used, and only a successful copy rewrites the embed |
| Web.LoadObsidianFile | web.py:301-337 | a file is only ever loaded under a legal name |
| Web.IllegalNameRefused | web.py:316-317 | an illegal name is refused with 400 |
| Web.LoadedFromVault | web.py:319-331 | a loaded file lies directly in the vault under the requested name, and its embeds are rewritten |
| Editor.FormatLeavesText | WriterStudio_GUI.py:296-319 | the selection is replaced exactly when there is one, it is not blank and the format is known |
| Editor.FormatBold | WriterStudio_GUI.py:310-312 | bold wraps the whole selection in `**` |
| Editor.MarkedLineKept | WriterStudio_GUI.py:303 | a line that already has the prefix formats to itself |
| Editor.PrefixLineIdempotent | WriterStudio_GUI.py:303 | a formatted line formats to itself |
| Editor.PrefixLinesSplit | WriterStudio_GUI.py:302-303 | formatting keeps the lines and formats each on its own |
| Editor.PrefixLinesIdempotent | WriterStudio_GUI.py:302-317 | a line-prefix format applied to its own output changes nothing |
| Editor.FormatsIdempotent | WriterStudio_GUI.py:300-317 | `h1`, `h2` and `quote` are each idempotent |
| Editor.StripEach | WriterStudio_GUI.py:389-398 | every line is stripped, and the number of lines is kept |
| Editor.ExtractMarkdown | WriterStudio_GUI.py:381-400 | the method returns the text trimmed as a whole, then line by line |
| Editor.ExtractedLines | WriterStudio_GUI.py:383-400 | the extracted text has one stripped line per line of the trimmed text |
| Editor.ExtractedStripped | WriterStudio_GUI.py:383-400 | the extracted text has no white space at either end |
| Editor.ExtractedIdempotent | WriterStudio_GUI.py:383-400 | extracting from extracted text changes nothing |
| Editor.CollapseBreaksNoTriple | WriterStudio_GUI.py:405 | after collapsing, no three line feeds are in a row |
| Editor.TrimLineEndsNoTrailing | WriterStudio_GUI.py:407 | after trimming, no line ends with a space |
| Editor.CollapseKeepsNoTrailing | WriterStudio_GUI.py:405 | collapsing never leaves a space at the end of a line |
| Editor.CollapseKeepsVisible | WriterStudio_GUI.py:405 | collapsing removes only line feeds |
| Editor.TrimKeepsVisible | WriterStudio_GUI.py:407 | trimming removes only spaces |
| Editor.CleanNotionSpacingLeavesTriple | WriterStudio_GUI.py:405-407 | as written, `"\n \n\n"` is cleaned to three line feeds in a row |
| Editor.CleanSpacing | WriterStudio_GUI.py:402-408 | the corrected clean-up leaves no trailing spaces, no three line feeds in a row, and the other characters unchanged |
| Editor.CleanNotionSpacingOfTrimmed | WriterStudio_GUI.py:405-407 | on text without trailing spaces, the code as written gives the corrected result |
| Editor.TrimLineEndsFixed | WriterStudio_GUI.py:407 | text without trailing spaces is left unchanged |
| Editor.BmpOnly | WriterStudio_GUI.py:1161 | only characters of the basic multilingual plane are kept, from the input |
| Editor.BmpOnlyAppend | WriterStudio_GUI.py:1161 | filtering works piecewise |
| Editor.BmpOnlyKeeps | WriterStudio_GUI.py:1161 | text wholly in the plane passes unchanged |
| Editor.BmpOnlyEmpty | WriterStudio_GUI.py:1161-1162 | nothing is left exactly when no character lies in the plane |
| Editor.TextRedirector.constructor | WriterStudio_GUI.py:1159 | the console starts with its initial text |
| Editor.TextRedirector.Write | WriterStudio_GUI.py:1160-1166 | the printable part is appended, and the widget is touched exactly when something printable was written |
| Editor.PastedNamesDistinct | WriterStudio_GUI.py:352-353 | different counter values give different file names |
| Editor.RichTextEditor.constructor | WriterStudio_GUI.py:43-44 | the editor starts with no images and the counter at 0 |
| Editor.RichTextEditor.AddImage | WriterStudio_GUI.py:334-379 | an image that opens raises the counter before it is saved, so its number is used up even when the save or thumbnail fails; it is kept, under a name not handed out since the last clear, only when every step succeeds; a failed open changes nothing |
| Editor.FailedSaveSkipsNumber | WriterStudio_GUI.py:350-379 | on a fresh editor, an image that fails to save makes the next saved image `pasted_image_2.png` |
| Editor.RichTextEditor.ClearEditor | WriterStudio_GUI.py:515-519 | the images are dropped and numbering starts again |

## Left out

- Drawing: PIL drawing, fonts, film grain and GIF/PNG encoding. Text widths and line heights are parameters.
- Floating point: the feature image's aspect-ratio resize (app.py:213-216), the sinusoidal pulse offset of the heading animation (app.py:267, 272), the film-grain intensity (app.py:117-118) and the canvas heights from the float ratios (app.py:123, 152). `time.time()` enters as a clock parameter already scaled to integers.
- `textwrap.wrap`: it is a parameter, and only its promise that no line is longer than the width is modelled.
- Network calls to the WeChat API: the token reply and the upload function are parameters.
- The web service plumbing: Flask routing, CORS, logging, `send_from_directory`, and the file writes and copies themselves. What is written, and where, is modelled.
- Threads and `deploy_to_github`.
- tkinter widgets, autosave, dialogs, and the zip filename re-decoding (WriterStudio_GUI.py:1001-1004).
- path_utils.py and test_editor.py are not part of this model.
- `run_publisher` is not modelled. The GUI's call at WriterStudio_GUI.py:1152 does not match the signature at publisher.py:242.
- `parse_and_insert_content` clears `images` but not `image_counter` (WriterStudio_GUI.py:413). It is not modelled.
- `list_obsidian_files`, the preview search of `save_and_generate`, and `serve_output_session`.
- `draw_footer_card`: `main` does not call it (the call is commented out).
- `load_config`/`CONFIG` and the proxy setup.
- Editor.RichTextEditor.AddImage: a failure after the image is kept, in the text-widget insertions at WriterStudio_GUI.py:371-373, is treated as success; those are widget calls.
- Strings.Lower: maps ASCII letters only, where Python's `str.lower` also maps other letters.
- AppState.Globals.ConfigureRun: substitutes the author only in the style's current entry, which is all `main` reads.
- The header's footer date `%B %d, %Y` (app.py:227) uses locale month names and is not modelled; the blog's clock readings are a `DateTime` parameter.

## Findings

| source | as written | input that shows it | evidently intended | confidence | as-written member | corrected member |
|---|---|---|---|---|---|---|
| WriterStudio_GUI.py:405-407 | `clean_notion_spacing` collapses runs of line feeds first, then deletes spaces at line ends | `"\n \n\n"` becomes `"\n\n\n"` | no trailing spaces and never more than one empty line in a row | not executed | Editor.CleanNotionSpacingLeavesTriple | Editor.CleanSpacing |
| web.py:216-219 | `upload_image` joins the client's file name to the input folder without checking it | `"/tmp/x.png"` uploaded to a session of an application under `/srv` is saved at `/tmp/x.png`, outside the input folder | uploads stay in the session's input folder, as the guards at web.py:75-76 and web.py:316-317 ensure elsewhere | not executed | Web.UploadEscapes | Web.UploadStaysInFolder |
