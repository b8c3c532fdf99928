/**
 * web.py: the per-session working folders, the request-name defaults, the
 * feature-image naming of `upload_image`, the traversal guard of
 * `load_obsidian_file`, and the rewriting of Obsidian `![[name.png]]` embeds
 * by `process_obsidian_images`. The server's folder (`BASE_DIR`), Python's
 * `str.isalnum`, the files on disk, and which image copies succeed are
 * parameters; Flask, JSON and the copies themselves are left out.
 */
module Web {
  import opened Wrappers
  import opened Strings
  import opened Paths
  import AppState
  import Blog

  /** `LOCAL_INPUT_DIR`. */
  function LocalInput(baseDir: string): string { PathJoin(baseDir, "input") }
  /** `LOCAL_OUTPUT_DIR`. */
  function LocalOutput(baseDir: string): string { PathJoin(baseDir, "output") }
  /** `TEMP_BASE_DIR`. */
  function TempBase(baseDir: string): string { PathJoin(baseDir, "temp_sessions") }

  /** The characters a session id keeps: `isalnum()` ones, `-` and `_`. */
  predicate IdChar(c: char, alnum: char -> bool) {
    alnum(c) || c == '-' || c == '_'
  }

  /** The sanitised session id: the kept characters, in order. */
  function SafeId(id: string, alnum: char -> bool): (r: string)
    ensures |r| <= |id|
    ensures forall i :: 0 <= i < |r| ==> IdChar(r[i], alnum)
    decreases |id|
  {
    if id == [] then [] else (if IdChar(id[0], alnum) then [id[0]] else []) + SafeId(id[1..], alnum)
  }

  /** The id of two pieces is the ids of the pieces. */
  lemma {:induction false} SafeIdAppend(a: string, b: string, alnum: char -> bool)
    ensures SafeId(a + b, alnum) == SafeId(a, alnum) + SafeId(b, alnum)
    decreases |a|
  {
    if a == [] {
      assert a + b == b;
    } else {
      assert (a + b)[1..] == a[1..] + b;
      SafeIdAppend(a[1..], b, alnum);
    }
  }

  /** An id made only of kept characters is kept whole; so sanitising is idempotent. */
  lemma {:induction false} SafeIdKeeps(id: string, alnum: char -> bool)
    requires forall i :: 0 <= i < |id| ==> IdChar(id[i], alnum)
    ensures SafeId(id, alnum) == id
    decreases |id|
  {
    if id != [] {
      SafeIdKeeps(id[1..], alnum);
      assert [id[0]] + id[1..] == id;
    }
  }

  /** Every kept character survives: the id is exactly the kept characters of the input, in order. */
  lemma {:induction false} SafeIdCounts(id: string, c: char, alnum: char -> bool)
    ensures multiset(SafeId(id, alnum))[c] == if IdChar(c, alnum) then multiset(id)[c] else 0
    decreases |id|
  {
    if id != [] {
      SafeIdCounts(id[1..], c, alnum);
      assert id == [id[0]] + id[1..];
    }
  }

  /** Since `/`, `\` and `.` are not alphanumeric, a sanitised id holds none of them. */
  lemma SafeIdNoTraversal(id: string, alnum: char -> bool)
    requires !alnum('/') && !alnum('\\') && !alnum('.')
    ensures var s := SafeId(id, alnum); '/' !in s && '\\' !in s && '.' !in s
  {
  }

  /** `get_session_paths`: the local folders without a session, else `input` and `output` in the session's folder. */
  function SessionPaths(sessionId: string, baseDir: string, alnum: char -> bool): (string, string) {
    if sessionId == [] then (LocalInput(baseDir), LocalOutput(baseDir))
    else
      var base := PathJoin(TempBase(baseDir), SafeId(sessionId, alnum));
      (PathJoin(base, "input"), PathJoin(base, "output"))
  }

  /** `name` joined under a path that does not end in `/`. */
  lemma JoinAfterName(a: string, b: string)
    requires a != [] && a[|a| - 1] != '/' && b != [] && b[0] != '/'
    ensures PathJoin(a, b) == a + "/" + b
  {
    assert !StartsWith(b, "/") by {
      assert b[..1][0] == b[0];
    }
  }

  /**
   * A session's folders are `input` and `output` directly inside
   * `temp_sessions/<safe id>` (or `temp_sessions/` itself when nothing of the
   * id is kept), so no id reaches outside the sessions folder; a request
   * without an id uses the legacy local folders.
   */
  lemma SessionPathsShape(sessionId: string, baseDir: string, alnum: char -> bool)
    requires !alnum('/')
    ensures sessionId == [] ==> SessionPaths(sessionId, baseDir, alnum) == (LocalInput(baseDir), LocalOutput(baseDir))
    ensures sessionId != [] ==> var t, s := TempBase(baseDir), SafeId(sessionId, alnum);
      var sep := if s == [] then "" else "/";
      SessionPaths(sessionId, baseDir, alnum) == (t + "/" + s + sep + "input", t + "/" + s + sep + "output")
  {
    if sessionId == [] { return; }
    var t, s := TempBase(baseDir), SafeId(sessionId, alnum);
    JoinEndsIn(baseDir, "temp_sessions");
    if s != [] {
      assert s[0] != '/' && s[|s| - 1] != '/';
    }
    JoinTwice(t, s, "input");
    JoinTwice(t, s, "output");
  }

  /** `name` joined under a path that ends in `/`. */
  lemma JoinAfterSlash(a: string, b: string)
    requires a != [] && a[|a| - 1] == '/' && b != [] && b[0] != '/'
    ensures PathJoin(a, b) == a + b
  {
    assert !StartsWith(b, "/") by {
      assert b[..1][0] == b[0];
    }
  }

  /** Joining `s` under a folder `t`, then a name under that: one `/` after `t`, and one after `s` unless it is empty. */
  lemma JoinTwice(t: string, s: string, name: string)
    requires t != [] && t[|t| - 1] != '/' && (s != [] ==> s[0] != '/' && s[|s| - 1] != '/')
    requires name != [] && name[0] != '/'
    ensures PathJoin(PathJoin(t, s), name) == t + "/" + s + (if s == [] then "" else "/") + name
  {
    var base := PathJoin(t, s);
    if s == [] {
      assert !StartsWith(s, "/");
      assert base == t + "/" + s;
      JoinAfterSlash(base, name);
      assert t + "/" + s + "" + name == base + name;
    } else {
      JoinAfterName(t, s);
      assert base[|base| - 1] == s[|s| - 1];
      JoinAfterName(base, name);
    }
  }

  /** A join onto a relative name ends with that name's last character. */
  lemma JoinEndsIn(a: string, b: string)
    requires b != [] && b[0] != '/'
    ensures var p := PathJoin(a, b); p != [] && p[|p| - 1] == b[|b| - 1]
  {
    PathJoinParts(a, b);
  }

  /** `data.get(key, default).strip()`, falling back to the default when blank. */
  function RequestName(raw: Option<string>, default: string): string {
    var f := Strip(raw.GetOr(default));
    if f == [] then default else f
  }

  /** A missing or blank name gives the default; any other name is used stripped. */
  lemma RequestNameDefault(raw: Option<string>, default: string)
    requires default != [] && Stripped(default)
    ensures var r := RequestName(raw, default);
      r != [] && Stripped(r)
      && (r == default <== raw.None? || IsBlank(raw.value))
      && (raw.Some? && !IsBlank(raw.value) ==> r == Strip(raw.value))
  {
    StripStripped(default);
  }

  /**
   * `save_and_generate`'s Markdown file: `<name>.md` in the input folder of
   * the stripped session id, `untitled` by default.
   */
  function GenerateTarget(rawName: Option<string>, rawSession: Option<string>, baseDir: string, alnum: char -> bool): string {
    PathJoin(SessionPaths(Strip(rawSession.GetOr("")), baseDir, alnum).0, RequestName(rawName, "untitled") + ".md")
  }

  /**
   * The saved file is `<name>.md` in the input folder of the stripped session
   * id: a missing or blank id means the local `input` folder, any other id is
   * used stripped. The name is not checked, so an absolute name is written at
   * that very path.
   */
  lemma GenerateTargetShape(rawName: Option<string>, rawSession: Option<string>, baseDir: string, alnum: char -> bool)
    ensures var p, name := GenerateTarget(rawName, rawSession, baseDir, alnum), RequestName(rawName, "untitled");
      var dir := SessionPaths(Strip(rawSession.GetOr("")), baseDir, alnum).0;
      (rawSession.None? || IsBlank(rawSession.value) ==> dir == LocalInput(baseDir))
      && (rawSession.Some? && !IsBlank(rawSession.value) ==> Strip(rawSession.value) != [])
      && (!StartsWith(name, "/") ==> StartsWith(p, dir))
      && ('/' !in name ==> Basename(p) == name + ".md")
      && (StartsWith(name, "/") ==> p == name + ".md")
  {
    var name := RequestName(rawName, "untitled");
    var dir := SessionDir(rawSession, baseDir, alnum);
    assert GenerateTarget(rawName, rawSession, baseDir, alnum) == PathJoin(dir, name + ".md");
    MarkdownJoin(dir, name);
  }

  /** The input folder of a raw session id: the local one exactly when the id is missing or blank. */
  lemma SessionDir(rawSession: Option<string>, baseDir: string, alnum: char -> bool) returns (dir: string)
    ensures dir == SessionPaths(Strip(rawSession.GetOr("")), baseDir, alnum).0
    ensures rawSession.None? || IsBlank(rawSession.value) ==> dir == LocalInput(baseDir)
    ensures rawSession.Some? && !IsBlank(rawSession.value) ==> Strip(rawSession.value) != []
  {
    var id := Strip(rawSession.GetOr(""));
    assert id == [] <==> IsBlank(rawSession.GetOr(""));
    dir := SessionPaths(id, baseDir, alnum).0;
  }

  /** `<name>.md` joined under a folder: under it unless the name is absolute, and then the name's own path. */
  lemma MarkdownJoin(dir: string, name: string)
    requires name != []
    ensures var p := PathJoin(dir, name + ".md");
      (!StartsWith(name, "/") ==> StartsWith(p, dir))
      && ('/' !in name ==> Basename(p) == name + ".md")
      && (StartsWith(name, "/") ==> p == name + ".md")
  {
    var f := name + ".md";
    assert f[..1] == name[..1];
    assert StartsWith(f, "/") <==> StartsWith(name, "/");
    PathJoinParts(dir, f);
    if '/' !in name {
      assert '/' !in f by {
        assert forall i :: 0 <= i < |f| ==> f[i] == if i < |name| then name[i] else ".md"[i - |name|];
      }
      BasenameOfJoin(dir, f);
    }
  }

  /** `publish_blog`'s call: the stripped name (or `Untitled`) as title, no custom slug. */
  function PublishBlog(rawName: Option<string>, content: string, author: Option<string>, dirExists: bool,
                       today: Blog.DateTime, now: Blog.DateTime): Result<Blog.Post, string> {
    Blog.PublishToBlog(RequestName(rawName, "Untitled"), content, author.GetOr(Blog.DefaultAuthor), None, dirExists, today, now)
  }

  /** A request whose name resolves to a title of ASCII letters is published as `<title>.md` in the posts folder. */
  lemma PublishLetterTitle(rawName: Option<string>, title: string, content: string, author: Option<string>,
                           today: Blog.DateTime, now: Blog.DateTime)
    requires RequestName(rawName, "Untitled") == title
    requires title != [] && forall i :: 0 <= i < |title| ==> IsAsciiLetter(title[i])
    ensures PublishBlog(rawName, content, author, true, today, now).Ok?
    ensures PublishBlog(rawName, content, author, true, today, now).value.path == Blog.BlogPostsDir + "/" + (title + ".md")
  {
    assert IsAsciiLetter(title[0]);
    PostsJoin(title);
    Blog.SlugOfLetters(title, now);
  }

  lemma PostsJoin(title: string)
    requires title != [] && title[0] != '/'
    ensures PathJoin(Blog.BlogPostsDir, title + ".md") == Blog.BlogPostsDir + "/" + (title + ".md")
  {
    Blog.PostsDirEnd();
    assert (title + ".md")[0] == title[0];
    JoinAfterName(Blog.BlogPostsDir, title + ".md");
  }

  /** Without a name, the blog post is `Untitled.md` in the posts folder. */
  lemma PublishBlogUntitled(content: string, author: Option<string>, today: Blog.DateTime, now: Blog.DateTime)
    ensures PublishBlog(None, content, author, true, today, now).Ok?
    ensures PublishBlog(None, content, author, true, today, now).value.path == Blog.BlogPostsDir + "/" + ("Untitled" + ".md")
  {
    UntitledName();
    PublishLetterTitle(None, "Untitled", content, author, today, now);
  }

  lemma UntitledName()
    ensures RequestName(None, "Untitled") == "Untitled"
    ensures forall i :: 0 <= i < |"Untitled"| ==> IsAsciiLetter("Untitled"[i])
  {
    var u := "Untitled";
    assert Stripped(u);
    StripStripped(u);
  }

  /** `upload_image`'s name for a feature image: `feature` plus the lower-cased extension, `.png` unless it is `.png`, `.jpg` or `.jpeg`. */
  function FeatureName(uploadName: string): string {
    var ext := Lower(Ext(uploadName));
    if ext == ".jpg" then "feature.jpg" else if ext == ".jpeg" then "feature.jpeg" else "feature.png"
  }

  /**
   * Every feature upload is one of the names `draw_header` probes in the same
   * input folder, keeping a `.png`, `.jpg` or `.jpeg` extension of any case.
   */
  lemma FeatureFound(uploadName: string, inputDir: string)
    ensures PathJoin(inputDir, FeatureName(uploadName)) in AppState.FeatureCandidates(inputDir)
  {
    var n := FeatureName(uploadName);
    var c := AppState.FeatureCandidates(inputDir);
    if n == "feature.png" {
      assert c[0] == PathJoin(inputDir, n);
    } else if n == "feature.jpg" {
      assert c[1] == PathJoin(inputDir, n);
    } else {
      assert c[2] == PathJoin(inputDir, n);
    }
  }

  /** An upload's `.png`, `.jpg` or `.jpeg` extension, in any case, is kept; any other becomes `.png`. */
  lemma FeatureKeepsExtension(uploadName: string)
    ensures var ext, n := Lower(Ext(uploadName)), FeatureName(uploadName);
      StartsWith(n, "feature") && EndsWith(n, if ext == ".png" || ext == ".jpg" || ext == ".jpeg" then ext else ".png")
  {
    FeatureOfExt(Lower(Ext(uploadName)), FeatureName(uploadName));
  }

  lemma FeatureOfExt(ext: string, n: string)
    requires n == if ext == ".jpg" then "feature.jpg" else if ext == ".jpeg" then "feature.jpeg" else "feature.png"
    ensures StartsWith(n, "feature") && EndsWith(n, if ext == ".png" || ext == ".jpg" || ext == ".jpeg" then ext else ".png")
  {
    if ext == ".jpg" {
      assert n[..7] == "feature" && n[7..] == ".jpg";
    } else if ext == ".jpeg" {
      assert n[..7] == "feature" && n[7..] == ".jpeg";
    } else {
      assert n[..7] == "feature" && n[7..] == ".png";
    }
  }

  /**
   * The header prefers `feature.png`: after a `.jpg` feature upload into a
   * folder that already holds `feature.png`, the header still finds the PNG.
   */
  lemma OlderPngFeatureWins(uploadName: string, inputDir: string, present: set<string>)
    requires Lower(Ext(uploadName)) == ".jpg"
    requires PathJoin(inputDir, "feature.png") in present
    ensures var saved := PathJoin(inputDir, FeatureName(uploadName));
      saved == PathJoin(inputDir, "feature.jpg")
      && FirstExisting(AppState.FeatureCandidates(inputDir), present + {saved}) == Some(PathJoin(inputDir, "feature.png"))
  {
  }

  /** The error replies of the routes: HTTP status and message. */
  datatype Reply = Reply(status: int, message: string)

  /** The guard of `load_obsidian_file`: no `..`, `/` or `\` in the name. */
  predicate IllegalName(name: string) {
    Contains(name, "..") || '/' in name || '\\' in name
  }

  /**
   * `upload_image` as written: a feature image is renamed, any other file is
   * saved under the name the client sent. Gives the saved path and name.
   */
  function UploadImage(hasFile: bool, clientName: string, isFeature: bool, inputDir: string): (r: Result<(string, string), Reply>)
    ensures r.Err? <==> !hasFile || clientName == []
  {
    if !hasFile then Err(Reply(400, "No file part"))
    else if clientName == [] then Err(Reply(400, "No selected file"))
    else
      var name := if isFeature then FeatureName(clientName) else clientName;
      Ok((PathJoin(inputDir, name), name))
  }

  /** Every session folder, and the local fallback, lies under the application folder. */
  lemma SessionInputUnder(sessionId: string, baseDir: string, alnum: char -> bool)
    requires !alnum('/')
    ensures StartsWith(SessionPaths(sessionId, baseDir, alnum).0, baseDir)
  {
    var inputDir := SessionPaths(sessionId, baseDir, alnum).0;
    JoinUnder(baseDir, "input");
    if sessionId != [] {
      var t, s := TempBase(baseDir), SafeId(sessionId, alnum);
      JoinUnder(baseDir, "temp_sessions");
      assert !StartsWith(s, "/") by {
        if s != [] {
          assert IdChar(s[0], alnum);
          assert s[..1][0] == s[0];
        }
      }
      PathJoinParts(t, s);
      JoinUnder(PathJoin(t, s), "input");
      StartsWithTrans(inputDir, PathJoin(t, s), t);
      StartsWithTrans(inputDir, t, baseDir);
    }
  }

  lemma StartsWithTrans(a: string, b: string, c: string)
    requires StartsWith(a, b) && StartsWith(b, c)
    ensures StartsWith(a, c)
  {
    assert a[..|c|] == a[..|b|][..|c|];
  }

  /**
   * An absolute client name is saved at that very path, whatever the session's
   * input folder; a name outside the application folder (`/tmp/x.png` for an
   * application under `/srv`) therefore lands outside the input folder.
   */
  lemma UploadEscapes(sessionId: string, baseDir: string, alnum: char -> bool, clientName: string)
    requires !alnum('/') && clientName != [] && clientName[0] == '/'
    ensures var inputDir := SessionPaths(sessionId, baseDir, alnum).0;
      var r := UploadImage(true, clientName, false, inputDir);
      r == Ok((clientName, clientName))
      && (!StartsWith(clientName, baseDir) ==> !StartsWith(r.value.0, inputDir))
  {
    var inputDir := SessionPaths(sessionId, baseDir, alnum).0;
    assert StartsWith(clientName, "/") by {
      assert clientName[..1][0] == clientName[0];
    }
    SessionInputUnder(sessionId, baseDir, alnum);
    if StartsWith(clientName, inputDir) {
      StartsWithTrans(clientName, inputDir, baseDir);
    }
  }

  /** `upload_image` with the guard `load_obsidian_file` uses: names that could leave the folder are refused. */
  function UploadImageGuarded(hasFile: bool, clientName: string, isFeature: bool, inputDir: string): (r: Result<(string, string), Reply>)
    ensures r.Err? <==> !hasFile || clientName == [] || (!isFeature && IllegalName(clientName))
  {
    if !hasFile then Err(Reply(400, "No file part"))
    else if clientName == [] then Err(Reply(400, "No selected file"))
    else if !isFeature && IllegalName(clientName) then Err(Reply(400, "Illegal file name"))
    else UploadImage(hasFile, clientName, isFeature, inputDir)
  }

  /** With the guard, every upload lands directly in the input folder under the name reported. */
  lemma UploadStaysInFolder(hasFile: bool, clientName: string, isFeature: bool, inputDir: string)
    requires UploadImageGuarded(hasFile, clientName, isFeature, inputDir).Ok?
    ensures var (path, name) := UploadImageGuarded(hasFile, clientName, isFeature, inputDir).value;
      StartsWith(path, inputDir) && Basename(path) == name
  {
    var (path, name) := UploadImageGuarded(hasFile, clientName, isFeature, inputDir).value;
    if isFeature {
      assert name == FeatureName(clientName);
      assert name[0] == 'f' && '/' !in name by {
        FeatureNameNoSlash(clientName);
      }
    } else {
      assert name == clientName && '/' !in name;
    }
    JoinUnder(inputDir, name);
    BasenameOfJoin(inputDir, name);
  }

  lemma FeatureNameNoSlash(uploadName: string)
    ensures var n := FeatureName(uploadName); n != [] && n[0] == 'f' && '/' !in n
  {
    var ext := Lower(Ext(uploadName));
    if ext == ".jpg" {
      NoSlashIn("feature.jpg");
    } else if ext == ".jpeg" {
      NoSlashIn("feature.jpeg");
    } else {
      NoSlashIn("feature.png");
    }
  }

  lemma NoSlashIn(n: string)
    requires n == "feature.jpg" || n == "feature.jpeg" || n == "feature.png"
    ensures n != [] && n[0] == 'f' && '/' !in n
  {
  }

  /** The number of leading characters of `t` other than `]`. */
  function RunLength(t: string): (k: nat)
    ensures k <= |t| && (k < |t| ==> t[k] == ']')
    ensures forall i :: 0 <= i < k ==> t[i] != ']'
    decreases |t|
  {
    if t == [] || t[0] == ']' then 0 else 1 + RunLength(t[1..])
  }

  /** `[^\]]+\.(png|jpg|jpeg|gif|webp|svg)` under `re.IGNORECASE`, for a name without `]`. */
  predicate ImageName(n: string) {
    var l := Lower(n);
    (|n| > 4 && (EndsWith(l, ".png") || EndsWith(l, ".jpg") || EndsWith(l, ".gif") || EndsWith(l, ".svg")))
    || (|n| > 5 && (EndsWith(l, ".jpeg") || EndsWith(l, ".webp")))
  }

  /**
   * The name of an embed `![[name]]` matched at the start of `s`. The name
   * cannot hold `]`, so it is the whole run up to the first `]`.
   */
  function EmbedAt(s: string): (r: Option<string>)
    ensures r.Some? ==> (']' !in r.value && ImageName(r.value) && |r.value| + 5 <= |s|
      && s[..|r.value| + 5] == "![[" + r.value + "]]")
  {
    if |s| >= 3 && s[..3] == "![[" then
      var t := s[3..];
      var k := RunLength(t);
      if k + 2 <= |t| && t[k + 1] == ']' && ImageName(t[..k]) then
        assert t[k..k + 2] == "]]";
        assert s[..k + 5] == "![[" + t[..k] + "]]";
        Some(t[..k])
      else None
    else None
  }

  /** Where an embedded image is looked for: the vault, then its `attachments` and `assets` folders. */
  function ImageCandidates(vault: string, name: string): seq<string> {
    [PathJoin(vault, name), PathJoin(PathJoin(vault, "attachments"), name), PathJoin(PathJoin(vault, "assets"), name)]
  }

  /**
   * `replace_image`: a found image whose copy succeeds becomes a standard
   * Markdown image of its base name; otherwise the embed stays as it was.
   */
  function Replacement(name: string, vault: string, present: set<string>, copyOk: set<string>): string {
    match FirstExisting(ImageCandidates(vault, name), present)
    case Some(src) =>
      if src in copyOk then "![" + Stem(name) + "](" + Basename(name) + ")" else "![[" + name + "]]"
    case None => "![[" + name + "]]"
  }

  /** `re.sub(pattern, replace_image, content, flags=re.IGNORECASE)`: leftmost embeds, scanning on after each. */
  function ObsidianImages(s: string, vault: string, present: set<string>, copyOk: set<string>): string
    decreases |s|
  {
    if s == [] then []
    else
      match EmbedAt(s)
      case Some(name) => Replacement(name, vault, present, copyOk) + ObsidianImages(s[|name| + 5..], vault, present, copyOk)
      case None => [s[0]] + ObsidianImages(s[1..], vault, present, copyOk)
  }

  /** Text without `!` is passed through, whatever follows it. */
  lemma {:induction false} PlainKept(p: string, rest: string, vault: string, present: set<string>, copyOk: set<string>)
    requires '!' !in p
    ensures ObsidianImages(p + rest, vault, present, copyOk) == p + ObsidianImages(rest, vault, present, copyOk)
    decreases |p|
  {
    if p == [] {
      assert p + rest == rest;
    } else {
      PlainStep(p, rest, vault, present, copyOk);
      PlainKept(p[1..], rest, vault, present, copyOk);
      HeadTail(p, ObsidianImages(rest, vault, present, copyOk));
    }
  }

  lemma PlainStep(p: string, rest: string, vault: string, present: set<string>, copyOk: set<string>)
    requires p != [] && p[0] != '!'
    ensures ObsidianImages(p + rest, vault, present, copyOk) == [p[0]] + ObsidianImages(p[1..] + rest, vault, present, copyOk)
  {
    var s := p + rest;
    assert s[0] == p[0] && s[1..] == p[1..] + rest;
    NoEmbedWithoutBang(s);
    ScanPlain(s, vault, present, copyOk);
  }

  /** Where no embed starts, the first character is copied and the scan moves on by one. */
  lemma ScanPlain(s: string, vault: string, present: set<string>, copyOk: set<string>)
    requires s != [] && EmbedAt(s).None?
    ensures ObsidianImages(s, vault, present, copyOk) == [s[0]] + ObsidianImages(s[1..], vault, present, copyOk)
  {
  }

  lemma NoEmbedWithoutBang(s: string)
    requires s != [] && s[0] != '!'
    ensures EmbedAt(s).None?
  {
    if |s| >= 3 {
      assert s[..3][0] == s[0];
    }
  }

  /** An embed `![[name]]` at the start is matched exactly when the name is an image name. */
  lemma EmbedOf(name: string, rest: string)
    requires ']' !in name
    ensures EmbedAt("![[" + name + "]]" + rest) == if ImageName(name) then Some(name) else None
  {
    var s := "![[" + name + "]]" + rest;
    assert s[..3] == "![[";
    var t := s[3..];
    assert t == name + ("]]" + rest);
    RunOf(name, "]]" + rest);
    assert RunLength(t) == |name|;
    assert t[..|name|] == name;
    assert t[|name| + 1] == ']';
  }

  /** An image embed is replaced and the scan goes on after it. */
  lemma EmbedReplaced(name: string, rest: string, vault: string, present: set<string>, copyOk: set<string>)
    requires ']' !in name && ImageName(name)
    ensures ObsidianImages("![[" + name + "]]" + rest, vault, present, copyOk)
      == Replacement(name, vault, present, copyOk) + ObsidianImages(rest, vault, present, copyOk)
  {
    var s := "![[" + name + "]]" + rest;
    EmbedOf(name, rest);
    assert s[|name| + 5..] == rest;
  }

  lemma {:induction false} RunOf(x: string, rest: string)
    requires ']' !in x && rest != [] && rest[0] == ']'
    ensures RunLength(x + rest) == |x|
    decreases |x|
  {
    if x != [] {
      assert (x + rest)[1..] == x[1..] + rest;
      RunOf(x[1..], rest);
    }
  }

  /** An embed of anything but an image, with no `!` in its name, is kept verbatim. */
  lemma NonImageKept(name: string, rest: string, vault: string, present: set<string>, copyOk: set<string>)
    requires ']' !in name && '!' !in name && !ImageName(name)
    ensures ObsidianImages("![[" + name + "]]" + rest, vault, present, copyOk)
      == "![[" + name + "]]" + ObsidianImages(rest, vault, present, copyOk)
  {
    var p := "[[" + name + "]]";
    var after := ObsidianImages(rest, vault, present, copyOk);
    NonImageBang(name, rest, vault, present, copyOk);
    PlainKept(p, rest, vault, present, copyOk);
    BangJoin(name, after);
  }

  lemma BangJoin(name: string, after: string)
    ensures "!" + (("[[" + name + "]]") + after) == "![[" + name + "]]" + after
  {
  }

  /** The `!` of an embed that is not an image is copied, and the scan moves on past it. */
  lemma NonImageBang(name: string, rest: string, vault: string, present: set<string>, copyOk: set<string>)
    requires ']' !in name && !ImageName(name)
    ensures '!' !in name ==> '!' !in "[[" + name + "]]"
    ensures ObsidianImages("![[" + name + "]]" + rest, vault, present, copyOk)
      == "!" + ObsidianImages("[[" + name + "]]" + rest, vault, present, copyOk)
  {
    var s := "![[" + name + "]]" + rest;
    assert s[0] == '!' && s[1..] == "[[" + name + "]]" + rest;
    EmbedOf(name, rest);
    ScanPlain(s, vault, present, copyOk);
  }

  /** The first of the three folders holding the image is used, and only a successful copy rewrites the embed. */
  lemma ReplacementCases(name: string, vault: string, present: set<string>, copyOk: set<string>)
    ensures var c := ImageCandidates(vault, name);
      var md, kept := "![" + Stem(name) + "](" + Basename(name) + ")", "![[" + name + "]]";
      var src := if c[0] in present then Some(c[0]) else if c[1] in present then Some(c[1]) else if c[2] in present then Some(c[2]) else None;
      Replacement(name, vault, present, copyOk) == if src.Some? && src.value in copyOk then md else kept
  {
    var c := ImageCandidates(vault, name);
    FirstOfThree(c[0], c[1], c[2], present);
  }

  /**
   * `load_obsidian_file`: refusals in the route's order (empty name, missing
   * configuration, missing vault, illegal name, missing file), else the file's
   * content with its embeds rewritten and the name without its extension.
   * `config` is the configured vault path, `None` without a configuration
   * file; `files` maps the readable files to their text.
   */
  function LoadObsidianFile(rawName: string, config: Option<string>, present: set<string>,
                            files: map<string, string>, copyOk: set<string>): (r: Result<(string, string), Reply>)
    ensures r.Ok? ==> !IllegalName(Strip(rawName))
  {
    var filename := Strip(rawName);
    if filename == [] then Err(Reply(400, "文件名不能为空"))
    else if config.None? then Err(Reply(404, "配置文件不存在"))
    else
      var vault := config.value;
      if vault == [] || vault !in present then Err(Reply(404, "Obsidian 文件夹路径未配置或不存在"))
      else if IllegalName(filename) then Err(Reply(400, "非法文件名"))
      else
        var path := PathJoin(vault, filename);
        if path !in files then Err(Reply(404, "文件不存在"))
        else Ok((ObsidianImages(files[path], vault, present, copyOk), Stem(filename)))
  }

  /** Once the vault is known, an illegal name is refused with 400 whatever the files hold. */
  lemma IllegalNameRefused(rawName: string, vault: string, present: set<string>, files: map<string, string>, copyOk: set<string>)
    requires Strip(rawName) != [] && vault != [] && vault in present && IllegalName(Strip(rawName))
    ensures LoadObsidianFile(rawName, Some(vault), present, files, copyOk) == Err(Reply(400, "非法文件名"))
  {
  }

  /** A file that is read lies directly inside the vault, under the requested name. */
  lemma LoadedFromVault(rawName: string, config: Option<string>, present: set<string>, files: map<string, string>, copyOk: set<string>)
    requires LoadObsidianFile(rawName, config, present, files, copyOk).Ok?
    ensures config.Some? && var path := PathJoin(config.value, Strip(rawName));
      StartsWith(path, config.value) && Basename(path) == Strip(rawName) && path in files
      && LoadObsidianFile(rawName, config, present, files, copyOk).value
         == (ObsidianImages(files[path], config.value, present, copyOk), Stem(Strip(rawName)))
  {
    var name := Strip(rawName);
    assert '/' !in name;
    JoinUnder(config.value, name);
    BasenameOfJoin(config.value, name);
  }
}
