/**
 * The process-wide state of app.py: the `THEMES` table, the `STYLE` entry it
 * currently points at (Python aliasing: writing through `STYLE` writes the
 * shared `THEMES` entry), and `SPECIFIC_FEATURE_NAME`.
 */
module AppState {
  import opened Wrappers
  import opened Strings
  import opened Paths

  /** The entries of one theme that the modelled code reads or writes. */
  datatype Theme = Theme(
    coverMainSize: int, coverMargin: int,
    headerMainSize: int, headerSubSize: int, headerMargin: int,
    hFontSize: int, hPaddingTop: int, hPaddingBottom: int, hNumRadius: int, hTextGap: int,
    qFontSize: int, qPaddingX: int, qLineSpacing: int, qDecoGap: int, qRadius: int, qFoldSize: int,
    authorText: string,
    canvasWidth: Option<int>)

  const DefaultTheme: string := "black_gold"
  const StandardWidth: int := 1080
  const AuthorPlaceholder: string := "{author}"
  const AuthorPrefix: string := "文 / "
  const DefaultAuthorText: string := AuthorPrefix + AuthorPlaceholder

  /** The three themes as the module defines them (no `canvas_width` until `set_style` adds it). */
  function InitialThemes(): map<string, Theme> {
    map[
      "black_gold" := Theme(130, 80, 100, 48, 80, 52, 110, 110, 38, 45, 46, 120, 35, 100, 20, 60, DefaultAuthorText, None),
      "tech_blue" := Theme(130, 80, 100, 48, 80, 52, 110, 110, 38, 45, 46, 120, 35, 100, 20, 60, DefaultAuthorText, None),
      "paper_white" := Theme(130, 80, 100, 48, 80, 52, 110, 110, 38, 45, 46, 120, 35, 100, 0, 0, DefaultAuthorText, None)
    ]
  }

  /** `main`'s author substitution on the style's `author_text`. */
  function ApplyAuthor(text: string, author: string): string {
    if author != [] && Contains(text, AuthorPlaceholder) then ReplaceAll(text, AuthorPlaceholder, author) else text
  }

  /** The header's feature-image candidates, in probing order. */
  function FeatureCandidates(assetDir: string): seq<string> {
    [PathJoin(assetDir, "feature.png"), PathJoin(assetDir, "feature.jpg"), PathJoin(assetDir, "feature.jpeg")]
  }

  lemma {:induction false} ContainsAfterPrefix(p: string, a: string, q: string)
    requires q != [] && q[0] !in p && Contains(p + a, q)
    ensures Contains(a, q)
    decreases |p|
  {
    if p != [] {
      assert (p + a)[0] == p[0];
      assert !StartsWith(p + a, q);
      assert (p + a)[1..] == p[1..] + a;
      ContainsAfterPrefix(p[1..], a, q);
    } else {
      assert p + a == a;
    }
  }

  /**
   * Once a run has substituted an author that does not itself contain the
   * placeholder, later runs in the same process keep that first author.
   */
  lemma SecondRunKeepsFirstAuthor(first: string, second: string)
    requires first != [] && !Contains(first, AuthorPlaceholder)
    ensures ApplyAuthor(DefaultAuthorText, first) == AuthorPrefix + first
    ensures ApplyAuthor(ApplyAuthor(DefaultAuthorText, first), second) == AuthorPrefix + first
  {
    FirstRunAuthor(first);
    AuthorSettled(first, second);
  }

  lemma FirstRunAuthor(first: string)
    requires first != []
    ensures ApplyAuthor(DefaultAuthorText, first) == AuthorPrefix + first
  {
    assert DefaultAuthorText[4..4 + |AuthorPlaceholder|] == AuthorPlaceholder;
    ContainsFrom(DefaultAuthorText, AuthorPlaceholder, 4);
    ReplaceAfterPrefix(AuthorPrefix, AuthorPlaceholder, AuthorPlaceholder, first);
    assert AuthorPlaceholder + [] == AuthorPlaceholder;
    ReplaceAtMatch(AuthorPlaceholder, [], first);
    assert first + [] == first;
  }

  lemma AuthorSettled(first: string, second: string)
    requires !Contains(first, AuthorPlaceholder)
    ensures ApplyAuthor(AuthorPrefix + first, second) == AuthorPrefix + first
  {
    if Contains(AuthorPrefix + first, AuthorPlaceholder) {
      ContainsAfterPrefix(AuthorPrefix, first, AuthorPlaceholder);
    }
  }

  class Globals {
    /** `THEMES`. */
    var themes: map<string, Theme>
    /** The key of the `THEMES` entry that `STYLE` refers to. */
    var style: string
    /** `SPECIFIC_FEATURE_NAME`. */
    var specificFeature: Option<string>

    ghost predicate Valid()
      reads this
    {
      DefaultTheme in themes && style in themes
    }

    /** The module's state at import time. */
    constructor ()
      ensures Valid()
      ensures themes == InitialThemes() && style == DefaultTheme && specificFeature == None
    {
      themes := InitialThemes();
      style := DefaultTheme;
      specificFeature := None;
    }

    /** `set_style`: select the theme (unknown names fall back to `black_gold`) and force its width to 1080 in `THEMES` itself. */
    method SetStyle(name: string)
      requires Valid()
      modifies this
      ensures Valid()
      ensures style == (if name in old(themes) then name else DefaultTheme)
      ensures themes == old(themes)[style := old(themes)[style].(canvasWidth := Some(StandardWidth))]
      ensures specificFeature == old(specificFeature)
    {
      if name in themes {
        style := name;
      } else {
        style := DefaultTheme;
      }
      themes := themes[style := themes[style].(canvasWidth := Some(StandardWidth))];
    }

    /** `main`'s first steps: set the theme, then substitute the author into the shared entry. */
    method ConfigureRun(theme: string, author: string)
      requires Valid()
      modifies this
      ensures Valid()
      ensures style == (if theme in old(themes) then theme else DefaultTheme)
      ensures themes == old(themes)[style := old(themes)[style].(
                canvasWidth := Some(StandardWidth),
                authorText := ApplyAuthor(old(themes)[style].authorText, author))]
      ensures specificFeature == old(specificFeature)
    {
      SetStyle(theme);
      var t := themes[style];
      themes := themes[style := t.(authorText := ApplyAuthor(t.authorText, author))];
    }

    /** `set_specific_feature`. */
    method SetSpecificFeature(name: string)
      modifies this
      ensures specificFeature == Some(name)
      ensures themes == old(themes) && style == old(style)
    {
      specificFeature := Some(name);
    }

    /**
     * `draw_header`'s feature-image lookup. It clears the global name before
     * reading it, so the result depends only on the fixed candidates.
     */
    method HeaderFeature(assetDir: string, present: set<string>) returns (path: Option<string>)
      modifies this
      ensures specificFeature == None
      ensures path == FirstExisting(FeatureCandidates(assetDir), present)
      ensures themes == old(themes) && style == old(style)
    {
      specificFeature := None;
      path := None;
      match specificFeature {
        case Some(n) =>
          if n != [] {
            var p := PathJoin(assetDir, n);
            if p in present {
              path := Some(p);
            }
          }
        case None =>
      }
      var candidates := FeatureCandidates(assetDir);
      var i := 0;
      while i < |candidates| && path.None?
        invariant 0 <= i <= |candidates|
        invariant path.None? ==> FirstExisting(candidates, present) == FirstExisting(candidates[i..], present)
        invariant path.Some? ==> path == FirstExisting(candidates, present)
        decreases |candidates| - i
      {
        assert candidates[i..][0] == candidates[i] && candidates[i..][1..] == candidates[i + 1..];
        if candidates[i] in present {
          path := Some(candidates[i]);
        }
        i := i + 1;
      }
    }
  }

  /** Two generations in one process with different authors: the shared style keeps the first author. */
  method TwoRuns(g: Globals, first: string, second: string)
    requires g.Valid() && g.themes[DefaultTheme].authorText == DefaultAuthorText
    requires first != [] && !Contains(first, AuthorPlaceholder)
    modifies g
    ensures g.Valid() && g.style == DefaultTheme
    ensures g.themes[DefaultTheme].authorText == AuthorPrefix + first
  {
    g.ConfigureRun(DefaultTheme, first);
    g.ConfigureRun(DefaultTheme, second);
    SecondRunKeepsFirstAuthor(first, second);
  }

  /** Naming a feature image through `set_specific_feature` does not change what the header finds. */
  method NamedFeatureIgnored(g: Globals, name: string, assetDir: string, present: set<string>) returns (path: Option<string>)
    modifies g
    ensures path == FirstExisting(FeatureCandidates(assetDir), present)
    ensures g.specificFeature == None
  {
    g.SetSpecificFeature(name);
    path := g.HeaderFeature(assetDir, present);
  }
}
