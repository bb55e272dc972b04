# Rocket launcher creator — Dafny model

Rocket is a small GTK program that writes a FreeDesktop `.desktop` launcher
for an application. The user fills in a form (name, type, comment, command,
categories, MIME types, icon file, terminal switch) and presses the create
button. The click handler then does three things:

- it copies the form into the stored `DesktopData` record;
- it validates the record: the name, the command and the icon must not be
  blank after trimming, and they are checked in that order;
- `save_file` writes the file `<local data dir>/applications/<slug>`, with its
  extension set to `desktop`.

The slug is the trimmed, lowercased name, with every run of whitespace
replaced by `-`. The file body is a `[Desktop Entry]` header followed by
`key=value` lines. The optional lines are written only when their trimmed
field is non-empty.

The model has these modules:

- `Results` (results.dfy): `Option` and `Result`.
- `Text` (text.dfy): Rust's `str::trim`, ASCII lowercasing and the `\s+` → `-`
  rewrite, with their specifications. On a trimmed string (all the slug ever
  passes it) the rewrite is proved equal to the words of the string joined by `-`.
- `Paths` (paths.dfy): the part of `PathBuf` the file name goes through. A
  path is its list of components; `push` and `set_extension` are modelled.
- `Desktop` (desktop_data.dfy): the record, its initial value, `validate`, the
  slug and the path of the file. The path is worked out for ordinary names and
  for the unusual names `.`, `..` and names that start with `/`.
- `EntryFile` (desktop_file.dfy): the lines and text of the file. It includes
  a method that builds the body by appending, as `save_file` does, and that is
  proved to produce that text.
- `EntryParse` (entry_parse.dfy): a reader for that text. For records whose
  written fields hold no line break, it is proved to read the written file back
  as exactly the lines that were written.
- `Creator` (creator.dfy): the running application as a class. It holds the
  shared record and the files written so far, modelled as a map from path to
  contents. Its methods are the click handler and `save_file`.

The platform's local data directory is a parameter of type `Option<Path>`.
The form's widget values are a `Form` value.

The code reports a validation failure only as the message
`"Missing app name"`, `"Missing exec command"` or `"Missing icon"`, printed
to the console. It has no separate error kinds. It does not handle a failed
file creation or write: the `unwrap` panics.

## Model

| member | source | states |
|---|---|---|
| Desktop.New | src/main.rs:33-44 | every text field starts empty and `terminal` false, so validation of the fresh record fails with the missing-name message |
| Desktop.Validate | src/main.rs:46-56 | `Ok` exactly when name, command and icon are all non-blank after trimming; otherwise the message of the first blank one in the order name, command, icon |
| Desktop.ValidateReadsOnlyRequiredFields | src/main.rs:46-56 | two records that agree on name, command and icon get the same validation result |
| Text.TrimSpec | src/main.rs:47-51 | `trim` leaves a part of the string with whitespace at neither end; it is empty exactly when the string is all whitespace, and it holds only characters of the string |
| Text.TrimStartSpec | src/main.rs:47-51 | the start-trim is a suffix of the string that does not start with whitespace, and only whitespace is dropped |
| Text.TrimEndSpec | src/main.rs:47-51 | the end-trim is a prefix of the string that does not end with whitespace, and only whitespace is dropped |
| Text.TrimUnique | src/main.rs:62 | trimming `a + m + b` gives `m` when `a` and `b` are whitespace and `m` is trimmed |
| Text.Lower | src/main.rs:62 | lowercasing keeps the length and maps each character by itself |
| Text.LowerKeepsTrimmed | src/main.rs:62 | lowercasing a trimmed string keeps it trimmed |
| Text.CollapseWhitespace | src/main.rs:61-62 | the `\s+` → `-` rewrite leaves no whitespace, is empty only for the empty string, and introduces no character but `-` |
| Text.CollapseAfterWord | src/main.rs:61-62 | a whitespace-free prefix passes the rewrite unchanged |
| Text.CollapseIsJoinOfWords | src/main.rs:61-62 | on a trimmed string the rewrite equals the maximal whitespace-free runs joined by single `-` |
| Text.WordsSkipWhitespace | src/main.rs:61-62 | leading whitespace does not change the runs the rewrite keeps |
| Desktop.Slug | src/main.rs:61-62 | the file's base name has no whitespace, and it is empty exactly when the name is blank |
| Desktop.SlugIsJoinedWords | src/main.rs:61-62 | the base name is the words of the lowercased, trimmed name joined by `-` |
| Desktop.SlugCharacterFromName | src/main.rs:61-62 | for ASCII names (the model lowercases only A-Z): any character other than `-` and a lowercase ASCII letter is in the base name only if it is in the name |
| Desktop.SlugOfSlug | src/main.rs:61-62 | for ASCII names (the model lowercases only A-Z): a name with no whitespace and no capital A-Z is its own base name |
| Desktop.ValidRecordHasSlug | src/main.rs:46-62 | a record that passes validation has a non-empty, whitespace-free base name |
| Paths.Push | src/main.rs:64-65 | pushing an absolute string replaces the path; pushing a relative one keeps the root and extends the components |
| Paths.PushPlainName | src/main.rs:64-65 | pushing a plain name appends exactly that one component |
| Paths.SetExtensionOfName | src/main.rs:66 | setting the extension of a path ending in a plain name replaces that name with its stem, `.` and the extension |
| Paths.SetExtensionOfParentDir | src/main.rs:66 | a path ending in `..` has no file name and keeps its form when the extension is set |
| Paths.StemWithoutDot | src/main.rs:66 | a name without `.` is its own stem |
| Paths.StemDropsExtension | src/main.rs:66 | for a name `a.b` with non-empty `a` and no `.` in `b`, the stem is `a` |
| Desktop.DesktopFilePath | src/main.rs:59-66 | a path is produced exactly when the local data directory exists |
| Desktop.FilePathOfPlainSlug | src/main.rs:64-66 | for a plain base name the file is `<stem>.desktop` directly inside `applications` under the data directory |
| Desktop.DesktopFilePathOfPlainSlug | src/main.rs:59-66 | a name whose base name is plain gets `applications/<stem>.desktop` under the data directory |
| Desktop.DesktopFilePathOfValidRecord | src/main.rs:46-66 | a valid record whose name has neither `/` nor `.` is written to `applications/<base name>.desktop` |
| Desktop.DesktopFilePathReplacesExtension | src/main.rs:66 | a base name `a.b` gives the file `a.desktop`: `set_extension` replaces the existing extension |
| Desktop.DesktopFilePathOfAbsoluteSlug | src/main.rs:64-66 | a base name starting with `/` discards the data directory; the file is that path with the extension set |
| Desktop.FilePathOfDot | src/main.rs:64-66 | the base name `.` adds nothing, so the extension is set on `applications` itself |
| Desktop.DesktopFilePathOfDotName | src/main.rs:46-66 | the name `.` passes the name check, and its file is `applications.desktop` beside `applications` |
| Desktop.FilePathOfDotDot | src/main.rs:64-66 | the base name `..` leaves `applications/..`, which has no file name, so no extension is set |
| Desktop.FilePathOfParentSlug | src/main.rs:64-66 | any base name that parses as `..` leaves `applications/..` unchanged by `set_extension` |
| Desktop.DesktopFilePathOfDotDotName | src/main.rs:46-66 | the name `..` passes the name check, and its path is the `applications/..` directory |
| Creator.FilePath | src/main.rs:61-66 | the step-by-step path computation of `save_file` gives the path `DesktopFilePath` specifies |
| EntryFile.Rank | src/main.rs:71-100 | each key has a position in the fixed order in which the writer emits lines |
| EntryFile.LinesFor | src/main.rs:71-100 | the lines for any values end with the `Terminal` line |
| EntryFile.Entries | src/main.rs:71-100 | the lines of a record's file end with `Terminal=<true or false>` |
| EntryFile.RenderLines | src/main.rs:71-100 | the text of the lines is empty only when there are none, and otherwise starts with a line break |
| EntryFile.BuildBody | src/main.rs:71-100 | the body built by appending pieces, with the optional lines only for non-blank trimmed fields, is the rendered text of the record's lines |
| EntryFile.RenderAppendOne | src/main.rs:71-100 | appending a line to the lines appends its text to the file text |
| EntryFile.RenderFrame | src/main.rs:71-72 | text whose last line is `Terminal` starts with the header and ends with that line |
| EntryFile.BodyFrame | src/main.rs:71-72 | every body starts with `[Desktop Entry]` and ends with `\nTerminal=true` or `\nTerminal=false` |
| EntryFile.LinesForInKeyOrder | src/main.rs:71-100 | the lines for any values are in the fixed key order, each key at most once |
| EntryFile.EntriesInKeyOrder | src/main.rs:71-100 | a record's lines are in the order Type, Name, Comment, Icon, Categories, MimeType, Exec, Terminal, each key at most once |
| EntryFile.LinesForRequired | src/main.rs:72-75 | the Type, Name, Exec and Terminal lines are always present |
| EntryFile.LinesForOptional | src/main.rs:77-95 | an optional key has a line with value `v` exactly when its value is non-empty and equals `v` |
| EntryFile.EntriesContent | src/main.rs:72-100 | a record's lines hold Type (untrimmed), the trimmed Name and Exec, and Terminal; each optional line is there exactly when its field is non-blank, and its value is the trimmed field |
| EntryFile.ValidRecordLines | src/main.rs:46-100 | a file written for a valid record has non-empty Name, Exec and Icon lines |
| EntryParse.KeyOf | src/main.rs:71-100 | a recognised key spelling is the spelling of the key returned |
| EntryParse.KeyTextRoundTrip | src/main.rs:71-100 | every key is read back from its spelling, which holds neither `=` nor a line break |
| EntryParse.ParseLine | src/main.rs:71-100 | a parsed line is exactly `key=value` for the key and value returned |
| EntryParse.ParseLines | src/main.rs:71-100 | parsed lines render back to the text they were read from |
| EntryParse.ParseBody | src/main.rs:71-100 | a parsed file renders back to the text it was read from |
| EntryParse.ParseLineText | src/main.rs:71-100 | a single-line `key=value` is read back as that line |
| EntryParse.ParseRenderLines | src/main.rs:71-100 | lines with single-line values are read back exactly from their text |
| EntryParse.ParseRender | src/main.rs:71-100 | a rendered file with single-line values is read back exactly as its lines |
| EntryParse.ParseBodyOfBody | src/main.rs:71-100 | the body written for a record whose written values (the type, and the other fields once trimmed) hold no line break reads back as exactly the lines chosen for it |
| Creator.Launcher.constructor | src/main.rs:153 | the application starts with `DesktopData::new()` and no file written |
| Creator.Launcher.SaveFile | src/main.rs:58-101 | without a data directory nothing is written; with one, the record's body is stored at the record's `.desktop` path, replacing any file there, and nothing else changes |
| Creator.Launcher.Click | src/main.rs:159-178 | the name is copied first; with no type selected the handler stops; otherwise every field comes from the form (the icon only when a file is chosen); a record failing validation is rejected with its message and nothing is written; a valid one is saved at its `.desktop` path |
| Creator.FillForgetsAllButIcon | src/main.rs:159-171 | after a click with a type selected, the earlier record matters only through its icon |
| Creator.IconSurvivesLaterClicks | src/main.rs:168-171 | an icon chosen at one click stays through later clicks without a file, and they then pass validation exactly when name and command are non-blank |
| Creator.FirstClickNeedsIcon | src/main.rs:51-52 | the first click with no icon file chosen is rejected with the missing-icon message, even with name and command filled in |

## Left out

- The GTK user interface (`build_ui`, `main`, the about dialog, the glade file) is not modelled. Only the create button's handler is modelled, as `Creator.Launcher.Click`, and the form's widget values are its `Form` argument.
- The desktop notifications after a save (src/main.rs:103-115) are not modelled. `SaveFile` returns `Created(path)` or `NoDataDir` instead.
- The console output (src/main.rs:173, 177) is not modelled. `Click` returns the validation message as `Rejected(message)` instead of printing it.
- `dirs::data_local_dir` is platform I/O, so it is a parameter.
- `File::create` and `write_all` are modelled as always succeeding. In the code their `unwrap` panics on an I/O error (src/main.rs:70, 101); the model has no such failure.
- Creator.Launcher.SaveFile: the file system is a map keyed by component lists, and `..` is not resolved against the directories. So `applications/../applications/foo.desktop` and `applications/foo.desktop` are two keys for one file on disk. For the name `..` the path is the directory `applications/..`: `Click` records a file under that key, where the code's `File::create` fails and its `unwrap` panics (src/main.rs:70).
- The `unwrap`s that turn paths into UTF-8 strings (src/main.rs:68, 169) are not modelled. Paths and file names are strings from the start.
- Creator.Launcher.Click: when no type is selected, the `unwrap` at src/main.rs:161 panics. This is modelled as the outcome `Aborted`, with only the name copied. The process end that follows is not modelled.
- Text.LowerChar: only ASCII A-Z are lowercased. Rust's `to_lowercase` maps all of Unicode, including characters whose lowercase form is longer.
- The `\s+` regex is modelled by the rewrite it performs, not by a regex engine. Whitespace is Unicode White_Space, which is what both `trim` and the regex `\s` use.
- A path is modelled as its root flag and components, not as the `OsString` the `PathBuf` holds. Repeated and trailing `/` and `.` components are normalised, as `Path::components` does.
- EntryParse.ParseBodyOfBody: values are written without escaping, so the read-back is proved only for records whose written values (the type, and the other fields once trimmed) hold no line break. A line break inside a written value adds lines to the file, as it does in the code.
- The `Debug` formatting of the record (src/main.rs:173) is not modelled.
