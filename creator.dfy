/**
 * The launcher creator's state and its two state-changing steps: the click on
 * the create button, which copies the form into the stored record, validates it
 * and saves it, and `save_file`, which writes the record's `.desktop` file.
 * The file system is a map from paths to file contents; the local data
 * directory is a parameter, as the platform reports it.
 */
module Creator {
  import opened Results
  import opened Text
  import opened Paths
  import opened Desktop
  import opened EntryFile

  /**
   * What the form shows at the click: the texts of the entries, the switch,
   * the type chosen in the combo box (none when nothing is selected) and the
   * file chosen for the icon (none when no file is chosen).
   */
  datatype Form = Form(
    appName: string,
    appType: Option<string>,
    terminal: bool,
    comment: string,
    execCommand: string,
    categories: string,
    extensions: string,
    iconFile: Option<string>)

  /** What `save_file` did: wrote the file at `path`, or found no local data directory. */
  datatype SaveOutcome = Created(path: Path) | NoDataDir

  /**
   * What a click did: saved (or tried to save) the record, rejected it with the
   * validation message, or stopped because no type was selected.
   */
  datatype ClickOutcome = Saved(save: SaveOutcome) | Rejected(message: string) | Aborted

  /**
   * The record after a click with a type selected: every field is taken from
   * the form, except the icon, which is kept from the previous record when no
   * icon file is chosen.
   */
  function Fill(previous: DesktopData, form: Form, appType: string): DesktopData {
    DesktopData(form.appName, form.comment, form.execCommand,
                if form.iconFile.Some? then form.iconFile.value else previous.iconFilename,
                form.categories, form.extensions, appType, form.terminal)
  }

  /** The previous record matters to a click only through its icon. */
  lemma FillForgetsAllButIcon(p: DesktopData, q: DesktopData, form: Form, appType: string)
    requires p.iconFilename == q.iconFilename || form.iconFile.Some?
    ensures Fill(p, form, appType) == Fill(q, form, appType)
  {
  }

  /**
   * An icon chosen at one click stays in the record: a later click without an
   * icon file passes the icon check whenever the earlier file name was not blank.
   */
  lemma IconSurvivesLaterClicks(d: DesktopData, first: Form, second: Form, t1: string, t2: string)
    requires first.iconFile.Some? && !AllWhitespace(first.iconFile.value)
    requires second.iconFile.None?
    ensures Fill(Fill(d, first, t1), second, t2).iconFilename == first.iconFile.value
    ensures Validate(Fill(Fill(d, first, t1), second, t2)).Ok?
            <==> !AllWhitespace(second.appName) && !AllWhitespace(second.execCommand)
  {
  }

  /** The first click after start-up needs an icon file: the record starts with an empty icon. */
  lemma FirstClickNeedsIcon(form: Form, appType: string)
    requires form.iconFile.None?
    requires !AllWhitespace(form.appName) && !AllWhitespace(form.execCommand)
    ensures Validate(Fill(New(), form, appType)) == Err(MissingIcon)
  {
    assert AllWhitespace(New().iconFilename);
  }

  /**
   * The path steps of `save_file`, updating one path in place: the name is
   * trimmed, lowercased and has its whitespace runs replaced by `-`; the path is
   * the data directory with `applications` and that name pushed, and its
   * extension set to `desktop`. This is the in-place form of
   * `FilePathIn(dir, Slug(appName))`, which its ensures states.
   */
  method FilePath(dir: Path, appName: string) returns (path: Path)
    ensures Some(path) == DesktopFilePath(Some(dir), appName)
  {
    var name := CollapseWhitespace(Lower(Trim(appName)));
    path := dir;
    path := Push(path, ApplicationsDir);
    path := Push(path, name);
    path := SetExtension(path, DesktopExtension);
  }

  /** The application state: the record the form is copied into, and the files written so far. */
  class Launcher {
    var data: DesktopData
    var files: map<Path, string>

    /** Start-up: an empty record and nothing written. */
    constructor()
      ensures data == New() && files == map[]
    {
      data := New();
      files := map[];
    }

    /**
     * `save_file`: with a local data directory, the body built for the record is
     * written at the record's `.desktop` path, replacing any file there; without
     * one, nothing is written.
     */
    method SaveFile(dataDir: Option<Path>) returns (outcome: SaveOutcome)
      modifies this`files
      ensures outcome.NoDataDir? <==> dataDir.None?
      ensures outcome.NoDataDir? ==> files == old(files)
      ensures outcome.Created? ==>
                Some(outcome.path) == DesktopFilePath(dataDir, data.appName)
                && files == old(files)[outcome.path := Body(data)]
    {
      var d := data;
      match dataDir {
        case None =>
          outcome := NoDataDir;
        case Some(dir) =>
          var path := FilePath(dir, d.appName);
          var fileData := BuildBody(d);
          files := files[path := fileData];
          outcome := Created(path);
      }
    }

    /**
     * The click on the create button. The name is copied first; with no type
     * selected the handler stops there. Otherwise the whole form is copied, and
     * the record is saved when it passes validation; when it does not, the
     * message is reported and nothing is written.
     */
    method Click(form: Form, dataDir: Option<Path>) returns (outcome: ClickOutcome)
      modifies this
      ensures form.appType.None? ==>
                outcome == Aborted && data == old(data).(appName := form.appName) && files == old(files)
      ensures form.appType.Some? ==> data == Fill(old(data), form, form.appType.value)
      ensures form.appType.Some? && Validate(data).Err? ==>
                outcome == Rejected(Validate(data).error) && files == old(files)
      ensures form.appType.Some? && Validate(data).Ok? && dataDir.None? ==>
                outcome == Saved(NoDataDir) && files == old(files)
      ensures form.appType.Some? && Validate(data).Ok? && dataDir.Some? ==>
                outcome == Saved(Created(FilePathIn(dataDir.value, Slug(data.appName))))
                && files == old(files)[FilePathIn(dataDir.value, Slug(data.appName)) := Body(data)]
    {
      data := data.(appName := form.appName);
      if form.appType.None? {
        return Aborted;
      }
      data := data.(appType := form.appType.value);
      data := data.(terminal := form.terminal);
      data := data.(comment := form.comment);
      data := data.(execCommand := form.execCommand);
      data := data.(categories := form.categories);
      data := data.(extensions := form.extensions);
      if form.iconFile.Some? {
        data := data.(iconFilename := form.iconFile.value);
      }
      match Validate(data) {
        case Ok(_) =>
          var saved := SaveFile(dataDir);
          outcome := Saved(saved);
        case Err(message) =>
          outcome := Rejected(message);
      }
    }
  }
}
