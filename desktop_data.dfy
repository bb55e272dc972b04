/**
 * The desktop-entry record of the launcher creator: its initial value, its
 * validation, and where its `.desktop` file goes.
 */
module Desktop {
  import opened Results
  import opened Text
  import opened Paths

  /** The fields of one launcher, as the form fills them in. */
  datatype DesktopData = DesktopData(
    appName: string,
    comment: string,
    execCommand: string,
    iconFilename: string,
    categories: string,
    extensions: string,
    appType: string,
    terminal: bool)

  const MissingAppName := "Missing app name"
  const MissingExecCommand := "Missing exec command"
  const MissingIcon := "Missing icon"

  /** The directory under the local data directory that holds the launchers. */
  const ApplicationsDir := "applications"
  const DesktopExtension := "desktop"

  /** The record before the form is first read: every text empty, no terminal. */
  function New(): (d: DesktopData)
    ensures d.appName == [] && d.comment == [] && d.execCommand == [] && d.iconFilename == []
    ensures d.categories == [] && d.extensions == [] && d.appType == [] && !d.terminal
    ensures Validate(d) == Err(MissingAppName)
  {
    DesktopData("", "", "", "", "", "", "", false)
  }

  /**
   * The first of the three required fields that is blank after trimming, in the
   * order name, command, icon, reported by its message; `Ok` when none is.
   */
  function Validate(d: DesktopData): (r: Result<(), string>)
    ensures r.Ok? <==>
              !AllWhitespace(d.appName) && !AllWhitespace(d.execCommand) && !AllWhitespace(d.iconFilename)
    ensures AllWhitespace(d.appName) ==> r == Err(MissingAppName)
    ensures !AllWhitespace(d.appName) && AllWhitespace(d.execCommand) ==> r == Err(MissingExecCommand)
    ensures (!AllWhitespace(d.appName) && !AllWhitespace(d.execCommand) && AllWhitespace(d.iconFilename))
              ==> r == Err(MissingIcon)
  {
    TrimSpec(d.appName);
    TrimSpec(d.execCommand);
    TrimSpec(d.iconFilename);
    if |Trim(d.appName)| == 0 then Err(MissingAppName)
    else if |Trim(d.execCommand)| == 0 then Err(MissingExecCommand)
    else if |Trim(d.iconFilename)| == 0 then Err(MissingIcon)
    else Ok(())
  }

  /** Only the name, the command and the icon take part in validation. */
  lemma ValidateReadsOnlyRequiredFields(d: DesktopData, e: DesktopData)
    requires d.appName == e.appName && d.execCommand == e.execCommand && d.iconFilename == e.iconFilename
    ensures Validate(d) == Validate(e)
  {
  }

  /**
   * The base name of the file: the trimmed name, lowercased, with every run of
   * whitespace replaced by `-`. It never holds whitespace, and it is empty only
   * for a blank name.
   */
  function Slug(appName: string): (slug: string)
    ensures NoWhitespace(slug)
    ensures slug == [] <==> AllWhitespace(appName)
  {
    TrimSpec(appName);
    CollapseWhitespace(Lower(Trim(appName)))
  }

  /** The slug is the words of the lowercased name joined by single hyphens. */
  lemma SlugIsJoinedWords(appName: string)
    ensures Slug(appName) == Join(Words(Lower(Trim(appName))), "-")
  {
    TrimSpec(appName);
    LowerKeepsTrimmed(Trim(appName));
    CollapseIsJoinOfWords(Lower(Trim(appName)));
  }

  /** A character other than `-` and a lowercase ASCII letter is in the slug only if it is in the name. */
  lemma SlugCharacterFromName(appName: string, c: char)
    requires c != '-' && !('a' <= c <= 'z')
    ensures c in Slug(appName) ==> c in appName
  {
    var t := Trim(appName);
    TrimSpec(appName);
    var l := Lower(t);
    if c in Slug(appName) {
      assert c in l;
      var i :| 0 <= i < |l| && l[i] == c;
      assert LowerChar(t[i]) == c;
      assert t[i] == c;
      assert c in t;
    }
  }

  /** A record that passes validation has a non-empty, whitespace-free slug. */
  lemma ValidRecordHasSlug(d: DesktopData)
    requires Validate(d).Ok?
    ensures Slug(d.appName) != [] && NoWhitespace(Slug(d.appName))
  {
  }

  /**
   * The file `save_file` writes: `applications/<slug>` under the local data
   * directory, with its extension set to `desktop`; nothing without that directory.
   */
  function DesktopFilePath(dataDir: Option<Path>, appName: string): (p: Option<Path>)
    ensures p.None? <==> dataDir.None?
  {
    match dataDir
    case None => None
    case Some(dir) => Some(FilePathIn(dir, Slug(appName)))
  }

  /** The `applications` directory under `dir`. */
  function AppsDir(dir: Path): Path {
    Path(dir.rooted, dir.parts + [Normal(ApplicationsDir)])
  }

  /** The path steps after the first: push the slug onto the `applications` directory, set the extension. */
  lemma FilePathInSteps(dir: Path, slug: string)
    ensures FilePathIn(dir, slug) == SetExtension(Push(AppsDir(dir), slug), DesktopExtension)
  {
    assert IsPlainName(ApplicationsDir);
    PushPlainName(dir, ApplicationsDir);
  }

  /** The steps of `save_file` on the path: push `applications`, push the slug, set the extension. */
  function FilePathIn(dir: Path, slug: string): Path {
    var path := Push(dir, ApplicationsDir);
    var path := Push(path, slug);
    SetExtension(path, DesktopExtension)
  }

  /** For a slug that is an ordinary file name, the file is `<stem>.desktop` directly inside `applications`. */
  lemma FilePathOfPlainSlug(dir: Path, slug: string)
    requires IsPlainName(slug)
    ensures FilePathIn(dir, slug)
            == Path(dir.rooted, dir.parts + [Normal("applications"), Normal(FileStem(slug) + ".desktop")])
  {
    assert IsPlainName(ApplicationsDir);
    PushPlainName(dir, ApplicationsDir);
    var apps := Path(dir.rooted, dir.parts + [Normal(ApplicationsDir)]);
    PushPlainName(apps, slug);
    SetExtensionOfName(apps, slug, DesktopExtension);
    var stem := FileStem(slug);
    ExtensionSuffix(stem);
    calc {
      FilePathIn(dir, slug);
      SetExtension(Push(apps, slug), DesktopExtension);
      SetExtension(Path(apps.rooted, apps.parts + [Normal(slug)]), DesktopExtension);
      Path(apps.rooted, apps.parts + [Normal(stem + "." + DesktopExtension)]);
      Path(dir.rooted, apps.parts + [Normal(stem + ".desktop")]);
      { assert apps.parts + [Normal(stem + ".desktop")]
               == dir.parts + [Normal("applications"), Normal(stem + ".desktop")]; }
      Path(dir.rooted, dir.parts + [Normal("applications"), Normal(stem + ".desktop")]);
    }
  }

  lemma ExtensionSuffix(stem: string)
    ensures stem + "." + DesktopExtension == stem + ".desktop"
  {
    ConcatAssoc(stem, ".", DesktopExtension);
  }

  /**
   * With a slug that is an ordinary file name, the file is `<slug stem>.desktop`
   * directly inside `applications` under the data directory.
   */
  lemma DesktopFilePathOfPlainSlug(dir: Path, appName: string)
    requires IsPlainName(Slug(appName))
    ensures DesktopFilePath(Some(dir), appName)
            == Some(Path(dir.rooted, dir.parts + [Normal("applications"), Normal(FileStem(Slug(appName)) + ".desktop")]))
  {
    FilePathOfPlainSlug(dir, Slug(appName));
  }

  /**
   * A valid record whose name has neither `/` nor `.` is written to
   * `applications/<slug>.desktop` under the data directory.
   */
  lemma DesktopFilePathOfValidRecord(dir: Path, d: DesktopData)
    requires Validate(d).Ok?
    requires '/' !in d.appName && '.' !in d.appName
    ensures DesktopFilePath(Some(dir), d.appName)
            == Some(Path(dir.rooted, dir.parts + [Normal("applications"), Normal(Slug(d.appName) + ".desktop")]))
  {
    var slug := Slug(d.appName);
    SlugCharacterFromName(d.appName, '/');
    SlugCharacterFromName(d.appName, '.');
    assert IsPlainName(slug);
    DesktopFilePathOfPlainSlug(dir, d.appName);
    StemWithoutDot(slug);
  }

  /**
   * `set_extension` replaces an extension already in the slug: a slug `a.b`
   * (with `b` free of dots) gives the file `a.desktop`.
   */
  lemma DesktopFilePathReplacesExtension(dir: Path, appName: string, a: string, b: string)
    requires Slug(appName) == a + "." + b && IsPlainName(Slug(appName))
    requires a != [] && '.' !in b
    ensures DesktopFilePath(Some(dir), appName)
            == Some(Path(dir.rooted, dir.parts + [Normal("applications"), Normal(a + ".desktop")]))
  {
    StemDropsExtension(a, b);
    DesktopFilePathOfPlainSlug(dir, appName);
  }

  /** A slug starting with `/` discards the data directory: the file is the slug itself, with the extension set. */
  lemma DesktopFilePathOfAbsoluteSlug(dir: Path, appName: string)
    requires Slug(appName) != [] && Slug(appName)[0] == '/'
    ensures DesktopFilePath(Some(dir), appName) == Some(SetExtension(ParsePath(Slug(appName)), "desktop"))
  {
  }

  /** A name that is already a slug (no whitespace, no capital A-Z) is its own slug. */
  lemma SlugOfSlug(w: string)
    requires w != [] && NoWhitespace(w)
    requires forall i :: 0 <= i < |w| ==> !('A' <= w[i] <= 'Z')
    ensures Slug(w) == w
  {
    TrimUnique([], w, []);
    assert [] + w + [] == w;
    var l := Lower(w);
    forall i | 0 <= i < |w| ensures l[i] == w[i] {
      assert l[i] == LowerChar(w[i]);
    }
    assert l == w;
    CollapseAfterWord(w, []);
    assert w + [] == w;
  }

  /** The path steps on the slug `.`: pushing it adds nothing, so the extension lands on `applications`. */
  lemma FilePathOfDot(dir: Path)
    ensures FilePathIn(dir, ".") == Path(dir.rooted, dir.parts + [Normal("applications.desktop")])
  {
    assert IsPlainName(ApplicationsDir);
    PushPlainName(dir, ApplicationsDir);
    var apps := Path(dir.rooted, dir.parts + [Normal(ApplicationsDir)]);
    PushDot(apps);
    SetExtensionOfApplications(dir);
  }

  lemma PushDot(p: Path)
    ensures Push(p, ".") == p
  {
    SegmentsWithoutSlash(".");
    assert ComponentsOf(["."]) == [];
  }

  /** Setting the `desktop` extension on the `applications` component gives `applications.desktop`. */
  lemma SetExtensionOfApplications(dir: Path)
    ensures SetExtension(Path(dir.rooted, dir.parts + [Normal(ApplicationsDir)]), DesktopExtension)
            == Path(dir.rooted, dir.parts + [Normal("applications.desktop")])
  {
    assert IsPlainName(ApplicationsDir);
    StemWithoutDot(ApplicationsDir);
    SetExtensionOfName(dir, ApplicationsDir, DesktopExtension);
    assert ApplicationsDir + "." + DesktopExtension == "applications.desktop";
  }

  /** The path steps on the slug `..`: it ends in `..`, which has no file name, so no extension is set. */
  lemma FilePathOfDotDot(dir: Path)
    ensures FilePathIn(dir, "..") == Path(dir.rooted, dir.parts + [Normal("applications"), ParentDir])
  {
    ParseDotDot();
    FilePathOfParentSlug(dir, "..");
  }

  /** A slug that denotes the parent directory leaves `applications/..`, with no extension set. */
  lemma FilePathOfParentSlug(dir: Path, slug: string)
    requires ParsePath(slug) == Path(false, [ParentDir])
    ensures FilePathIn(dir, slug) == Path(dir.rooted, dir.parts + [Normal("applications"), ParentDir])
  {
    FilePathInSteps(dir, slug);
    var apps := AppsDir(dir);
    var up := Path(dir.rooted, apps.parts + [ParentDir]);
    assert Push(apps, slug) == up;
    SetExtensionOfParentDir(up, DesktopExtension);
    assert up == Path(dir.rooted, dir.parts + [Normal("applications"), ParentDir]);
  }

  /** The name `.` passes validation, and its file is `applications.desktop` beside `applications`. */
  lemma DesktopFilePathOfDotName(dir: Path)
    ensures !AllWhitespace(".")
    ensures DesktopFilePath(Some(dir), ".")
            == Some(Path(dir.rooted, dir.parts + [Normal("applications.desktop")]))
  {
    assert !IsWhitespace('.');
    SlugOfSlug(".");
    FilePathOfDot(dir);
  }

  /** The name `..` passes validation, and its path is `applications/..`, with no extension set. */
  lemma DesktopFilePathOfDotDotName(dir: Path)
    ensures !AllWhitespace("..")
    ensures DesktopFilePath(Some(dir), "..")
            == Some(Path(dir.rooted, dir.parts + [Normal("applications"), ParentDir]))
  {
    assert !IsWhitespace('.');
    SlugOfSlug("..");
    FilePathOfDotDot(dir);
  }
}
