/**
 * The integer layout arithmetic of app.py's card renderers: the font-size
 * search of `draw_cover`/`draw_header` and the canvas heights and text
 * positions of `draw_heading_gif` and `draw_quote`. Text widths and glyph
 * heights come from the font and are parameters here.
 */
module Layout {
  import opened Strings
  import opened AppState
  import opened TextNormalizer

  const CoverMinSize: int := 60
  const HeaderMainMinSize: int := 40
  const HeaderSubMinSize: int := 24
  /** The gap `draw_heading_gif` leaves between title lines. */
  const HeadingLineGap: int := 25

  /** The font size after `k` shrink steps of 2. */
  function StepSize(start: int, k: nat): int {
    start - 2 * k
  }

  /**
   * The shrink-to-fit loop: starting from `start`, step the font size down by 2
   * while the text is wider than `maxWidth` at that size and the size is still
   * above `floor`. `steps` counts the steps taken.
   */
  method ShrinkToFit(width: int -> int, start: int, floor: int, maxWidth: int) returns (size: int, ghost steps: nat)
    ensures size == StepSize(start, steps)
    ensures forall k :: 0 <= k < steps ==> width(StepSize(start, k)) > maxWidth && StepSize(start, k) > floor
    ensures width(size) <= maxWidth || size <= floor
    ensures start > floor ==> size > floor - 2
    ensures start <= floor ==> size == start
  {
    size := start;
    steps := 0;
    while width(size) > maxWidth && size > floor
      invariant size == StepSize(start, steps)
      invariant forall k :: 0 <= k < steps ==> width(StepSize(start, k)) > maxWidth && StepSize(start, k) > floor
      invariant start > floor ==> size > floor - 2
      invariant start <= floor ==> size == start
      decreases size - floor
    {
      size := size - 2;
      steps := steps + 1;
    }
  }

  /** `draw_cover`'s title size: from `cover_main_size` down to 60, inside the side margins. */
  method CoverTitleSize(theme: Theme, width: int -> int) returns (size: int)
    requires theme.coverMainSize > CoverMinSize && theme.coverMainSize % 2 == 0
    ensures CoverMinSize <= size <= theme.coverMainSize
    ensures width(size) <= StandardWidth - 2 * theme.coverMargin || size == CoverMinSize
  {
    ghost var steps;
    size, steps := ShrinkToFit(width, theme.coverMainSize, CoverMinSize, StandardWidth - 2 * theme.coverMargin);
    EvenStepsStayAboveFloor(theme.coverMainSize, CoverMinSize, steps);
  }

  /**
   * `draw_header`'s title and subtitle sizes: down to 40 and 24 respectively.
   * The subtitle loop runs only when the title line has a subtitle; without
   * one the subtitle size is never changed (nor used).
   */
  method HeaderTitleSizes(theme: Theme, subTitle: string, mainWidth: int -> int, subWidth: int -> int) returns (mainSize: int, subSize: int)
    requires theme.headerMainSize > HeaderMainMinSize && theme.headerMainSize % 2 == 0
    requires theme.headerSubSize > HeaderSubMinSize && theme.headerSubSize % 2 == 0
    ensures HeaderMainMinSize <= mainSize <= theme.headerMainSize
    ensures HeaderSubMinSize <= subSize <= theme.headerSubSize
    ensures mainWidth(mainSize) <= StandardWidth - 2 * theme.headerMargin || mainSize == HeaderMainMinSize
    ensures subTitle != [] ==> subWidth(subSize) <= StandardWidth - 2 * theme.headerMargin || subSize == HeaderSubMinSize
    ensures subTitle == [] ==> subSize == theme.headerSubSize
  {
    ghost var steps;
    mainSize, steps := ShrinkToFit(mainWidth, theme.headerMainSize, HeaderMainMinSize, StandardWidth - 2 * theme.headerMargin);
    EvenStepsStayAboveFloor(theme.headerMainSize, HeaderMainMinSize, steps);
    subSize := theme.headerSubSize;
    if subTitle != [] {
      subSize, steps := ShrinkToFit(subWidth, theme.headerSubSize, HeaderSubMinSize, StandardWidth - 2 * theme.headerMargin);
      EvenStepsStayAboveFloor(theme.headerSubSize, HeaderSubMinSize, steps);
    }
  }

  /** Stepping by 2 from an even size never passes below an even floor. */
  lemma EvenStepsStayAboveFloor(start: int, floor: int, steps: nat)
    requires start % 2 == 0 && floor % 2 == 0
    requires StepSize(start, steps) > floor - 2
    ensures StepSize(start, steps) >= floor
  {
    var d := StepSize(start, steps) - floor;
    assert d == (start - floor) - 2 * steps;
    assert (start - floor) % 2 == 0;
  }

  function Sum(hs: seq<int>): int
    decreases |hs|
  {
    if hs == [] then 0 else Sum(hs[..|hs| - 1]) + hs[|hs| - 1]
  }

  /** `sum(heights) + len(lines) * gap - gap`: the height of a block of lines separated by `gap`. */
  function TextBlockHeight(hs: seq<int>, gap: int): int {
    Sum(hs) + |hs| * gap - gap
  }

  /** One more line adds its own height and one gap. */
  lemma TextBlockAppend(hs: seq<int>, h: int, gap: int)
    requires hs != []
    ensures TextBlockHeight(hs + [h], gap) == TextBlockHeight(hs, gap) + gap + h
  {
    assert (hs + [h])[..|hs + [h]| - 1] == hs;
  }

  /**
   * The text-drawing loops of `draw_heading_gif` and `draw_quote`: each line is
   * drawn at `y`, then `y` advances by its height and the gap.
   */
  method LineTops(hs: seq<int>, top: int, gap: int) returns (tops: seq<int>, y: int)
    ensures |tops| == |hs|
    ensures forall k :: 0 <= k < |hs| ==> tops[k] == top + Sum(hs[..k]) + k * gap
    ensures hs != [] ==> tops[|hs| - 1] + hs[|hs| - 1] == top + TextBlockHeight(hs, gap)
  {
    tops := [];
    y := top;
    var k := 0;
    while k < |hs|
      invariant 0 <= k <= |hs|
      invariant |tops| == k
      invariant forall j :: 0 <= j < k ==> tops[j] == top + Sum(hs[..j]) + j * gap
      invariant y == top + Sum(hs[..k]) + k * gap
    {
      tops := tops + [y];
      assert hs[..k + 1][..k] == hs[..k];
      y := y + hs[k] + gap;
      k := k + 1;
    }
    if hs != [] {
      assert hs[..|hs|] == hs;
      assert hs[..|hs|][..|hs| - 1] == hs[..|hs| - 1];
    }
  }

  /** `draw_heading_gif`'s canvas height. */
  function HeadingImageHeight(theme: Theme, hs: seq<int>): int {
    theme.hPaddingTop + theme.hNumRadius * 2 + theme.hTextGap + TextBlockHeight(hs, HeadingLineGap) + theme.hPaddingBottom
  }

  /** Where `draw_heading_gif` draws its first title line: below the number badge and the gap. */
  function HeadingTextTop(theme: Theme): int {
    theme.hPaddingTop + theme.hNumRadius + theme.hNumRadius + theme.hTextGap
  }

  /** The last title line of a heading card ends exactly `h_padding_bottom` above the canvas bottom. */
  lemma HeadingTextFits(theme: Theme, hs: seq<int>, tops: seq<int>)
    requires hs != [] && |tops| == |hs|
    requires forall k :: 0 <= k < |hs| ==> tops[k] == HeadingTextTop(theme) + Sum(hs[..k]) + k * HeadingLineGap
    ensures tops[|hs| - 1] + hs[|hs| - 1] == HeadingImageHeight(theme, hs) - theme.hPaddingBottom
  {
    assert hs[..|hs|] == hs;
  }

  /** `draw_quote`'s wrap width in characters. */
  function QuoteWrapWidth(theme: Theme): int
    requires theme.qFontSize > 0
  {
    (StandardWidth - theme.qPaddingX * 2) / theme.qFontSize
  }

  /** Every built-in theme wraps quotes at 18 characters. */
  lemma QuoteWrapWidthOfThemes(name: string)
    requires name in InitialThemes()
    ensures InitialThemes()[name].qFontSize > 0
    ensures QuoteWrapWidth(InitialThemes()[name]) == 18
  {
  }

  /** `draw_quote`'s lines: `process_text_lines` at the quote wrap width, which `textwrap.wrap` needs positive. */
  function QuoteLines(theme: Theme, text: string, wrap: (string, nat) -> seq<string>): seq<string>
    requires theme.qFontSize > 0 && QuoteWrapWidth(theme) > 0
    requires WrapRespectsWidth(wrap)
  {
    ProcessTextLines(text, QuoteWrapWidth(theme), wrap)
  }

  /** Under a built-in theme, a quote without `|` is wrapped into lines of at most 18 characters. */
  lemma QuoteLinesOfThemes(name: string, text: string, wrap: (string, nat) -> seq<string>)
    requires name in InitialThemes() && '|' !in text
    requires WrapRespectsWidth(wrap)
    ensures InitialThemes()[name].qFontSize > 0 && QuoteWrapWidth(InitialThemes()[name]) > 0
    ensures var lines := QuoteLines(InitialThemes()[name], text, wrap);
      forall i :: 0 <= i < |lines| ==> |lines[i]| <= 18
  {
    QuoteWrapWidthOfThemes(name);
  }

  /** `draw_quote`'s canvas height: the text block plus `q_deco_gap` above and below. */
  function QuoteImageHeight(theme: Theme, hs: seq<int>): int {
    TextBlockHeight(hs, theme.qLineSpacing) + theme.qDecoGap * 2
  }

  /** `draw_quote`'s first text line position: `(img_h - total_h) // 2`. */
  function QuoteTextTop(theme: Theme, hs: seq<int>): (y: int)
    ensures y == theme.qDecoGap
    ensures QuoteImageHeight(theme, hs) - (y + TextBlockHeight(hs, theme.qLineSpacing)) == theme.qDecoGap
  {
    (QuoteImageHeight(theme, hs) - TextBlockHeight(hs, theme.qLineSpacing)) / 2
  }

  /**
   * `draw_quote`'s x position of one line: lines that start with an attribution
   * dash are right-aligned, `q_padding_x + 20` from the edge; others are centred.
   */
  function QuoteLineX(canvasWidth: int, lineWidth: int, paddingX: int, line: string): int {
    if StartsWith(line, "——") || StartsWith(line, "--") then canvasWidth - lineWidth - (paddingX + 20)
    else (canvasWidth - lineWidth) / 2
  }

  /** Attribution lines end `q_padding_x + 20` from the right edge; other lines are centred to within one pixel. */
  lemma QuoteLineAlignment(canvasWidth: int, lineWidth: int, paddingX: int, line: string)
    ensures var x := QuoteLineX(canvasWidth, lineWidth, paddingX, line);
            if StartsWith(line, "——") || StartsWith(line, "--") then canvasWidth - (x + lineWidth) == paddingX + 20
            else 0 <= (canvasWidth - (x + lineWidth)) - x <= 1
  {
  }
}
