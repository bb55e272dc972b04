/**
 * The text of the `.desktop` file written for a record: a `[Desktop Entry]`
 * header followed by `key=value` lines, each introduced by a line break.
 */
module EntryFile {
  import opened Text
  import opened Desktop

  /** The keys the writer knows. */
  datatype Key = Type | Name | Comment | Icon | Categories | MimeType | Exec | Terminal

  /** One `key=value` line. */
  datatype Line = Line(key: Key, value: string)

  const Header := "[Desktop Entry]"

  /** The keys in the order the writer considers them. */
  const KeyOrder: seq<Key> := [Type, Name, Comment, Icon, Categories, MimeType, Exec, Terminal]

  /** The spellings of the keys, in the fixed order. */
  const KeyNames: seq<string> := ["Type", "Name", "Comment", "Icon", "Categories", "MimeType", "Exec", "Terminal"]

  /** The key as it is spelled in the file. */
  function KeyText(k: Key): string {
    KeyNames[Rank(k)]
  }

  /** The position of a key in the order the writer considers them. */
  function Rank(k: Key): (n: nat)
    ensures n < |KeyOrder| && KeyOrder[n] == k
  {
    match k
    case Type => 0
    case Name => 1
    case Comment => 2
    case Icon => 3
    case Categories => 4
    case MimeType => 5
    case Exec => 6
    case Terminal => 7
  }

  /** Rust's `bool::to_string`. */
  function BoolText(b: bool): string {
    if b then "true" else "false"
  }

  /** A line written only when its value is non-empty. */
  function OptionalLine(key: Key, value: string): seq<Line> {
    if |value| > 0 then [Line(key, value)] else []
  }

  /** The line of an optional field: written, with the trimmed field, only when that is non-empty. */
  function Optional(key: Key, field: string): seq<Line> {
    OptionalLine(key, Trim(field))
  }

  /** The lines written for the given values, in the order the writer considers them. */
  function LinesFor(appType: string, name: string, comment: string, icon: string, categories: string,
                    mimeTypes: string, exec: string, terminal: string): (ls: seq<Line>)
    ensures |ls| > 0 && ls[|ls| - 1] == Line(Terminal, terminal)
  {
    [Line(Type, appType)]
    + [Line(Name, name)]
    + OptionalLine(Comment, comment)
    + OptionalLine(Icon, icon)
    + OptionalLine(Categories, categories)
    + OptionalLine(MimeType, mimeTypes)
    + [Line(Exec, exec)]
    + [Line(Terminal, terminal)]
  }

  /** The lines of the file of a record, after the header, in the order they are written. */
  function Entries(d: DesktopData): (es: seq<Line>)
    ensures |es| > 0 && es[|es| - 1] == Line(Terminal, BoolText(d.terminal))
  {
    LinesFor(d.appType, Trim(d.appName), Trim(d.comment), Trim(d.iconFilename), Trim(d.categories),
             Trim(d.extensions), Trim(d.execCommand), BoolText(d.terminal))
  }

  /** A line as written: a line break, the key, `=`, the value. */
  function LineText(l: Line): string {
    "\n" + KeyText(l.key) + "=" + l.value
  }

  function RenderLines(ls: seq<Line>): (s: string)
    ensures s == [] <==> ls == []
    ensures s != [] ==> s[0] == '\n'
  {
    if ls == [] then [] else LineText(ls[0]) + RenderLines(ls[1..])
  }

  /** The text of a file with the given lines: the header, then each line. */
  function Render(ls: seq<Line>): string {
    Header + RenderLines(ls)
  }

  /** The file text `save_file` builds for a record. */
  function Body(d: DesktopData): string {
    Render(Entries(d))
  }

  /**
   * The body as `save_file` builds it: appended to piece by piece, the optional
   * lines only when their trimmed field is non-empty.
   */
  method BuildBody(d: DesktopData) returns (fileData: string)
    ensures fileData == Body(d)
  {
    ghost var done: seq<Line> := [];
    ghost var before: string;
    KeyPrefixes();
    fileData := "[Desktop Entry]";
    assert fileData == Render(done);

    before := fileData;
    fileData := fileData + "\nType=";
    fileData := fileData + d.appType;
    done := ExtendLine(before, fileData, done, Line(Type, d.appType));

    before := fileData;
    fileData := fileData + "\nName=";
    fileData := fileData + Trim(d.appName);
    done := ExtendLine(before, fileData, done, Line(Name, Trim(d.appName)));

    before := fileData;
    if |Trim(d.comment)| > 0 {
      fileData := fileData + "\nComment=";
      fileData := fileData + Trim(d.comment);
    }
    done := ExtendOptional(before, fileData, done, Comment, d.comment);

    before := fileData;
    if |Trim(d.iconFilename)| > 0 {
      fileData := fileData + "\nIcon=";
      fileData := fileData + Trim(d.iconFilename);
    }
    done := ExtendOptional(before, fileData, done, Icon, d.iconFilename);

    before := fileData;
    if |Trim(d.categories)| > 0 {
      fileData := fileData + "\nCategories=";
      fileData := fileData + Trim(d.categories);
    }
    done := ExtendOptional(before, fileData, done, Categories, d.categories);

    before := fileData;
    if |Trim(d.extensions)| > 0 {
      fileData := fileData + "\nMimeType=";
      fileData := fileData + Trim(d.extensions);
    }
    done := ExtendOptional(before, fileData, done, MimeType, d.extensions);

    before := fileData;
    fileData := fileData + "\nExec=";
    fileData := fileData + Trim(d.execCommand);
    done := ExtendLine(before, fileData, done, Line(Exec, Trim(d.execCommand)));

    before := fileData;
    fileData := fileData + "\nTerminal=";
    fileData := fileData + BoolText(d.terminal);
    done := ExtendLine(before, fileData, done, Line(Terminal, BoolText(d.terminal)));

    assert [] + [Line(Type, d.appType)] == [Line(Type, d.appType)];
  }

  /** The literal prefixes BuildBody appends are a line break, the key and `=`. */
  lemma KeyPrefixes()
    ensures "\n" + KeyText(Type) + "=" == "\nType="
    ensures "\n" + KeyText(Name) + "=" == "\nName="
    ensures "\n" + KeyText(Comment) + "=" == "\nComment="
    ensures "\n" + KeyText(Icon) + "=" == "\nIcon="
    ensures "\n" + KeyText(Categories) + "=" == "\nCategories="
    ensures "\n" + KeyText(MimeType) + "=" == "\nMimeType="
    ensures "\n" + KeyText(Exec) + "=" == "\nExec="
    ensures "\n" + KeyText(Terminal) + "=" == "\nTerminal="
  {
  }

  /** One step of BuildBody: appending line `l` to the text of `done` gives the text of `done + [l]`. */
  lemma ExtendLine(before: string, after: string, done: seq<Line>, l: Line) returns (done': seq<Line>)
    requires before == Render(done)
    requires after == before + ("\n" + KeyText(l.key) + "=") + l.value
    ensures done' == done + [l]
    ensures after == Render(done')
  {
    done' := done + [l];
    RenderAppendOne(done, l);
    calc {
      Render(done');
      before + LineText(l);
      { ConcatAssoc(before, "\n" + KeyText(l.key) + "=", l.value); }
      after;
    }
  }

  /** One step of BuildBody for an optional field: the line is appended only when the field is not blank. */
  lemma ExtendOptional(before: string, after: string, done: seq<Line>, key: Key, field: string)
    returns (done': seq<Line>)
    requires before == Render(done)
    requires after == if |Trim(field)| > 0 then before + ("\n" + KeyText(key) + "=") + Trim(field) else before
    ensures done' == done + Optional(key, field)
    ensures after == Render(done')
  {
    if |Trim(field)| > 0 {
      done' := ExtendLine(before, after, done, Line(key, Trim(field)));
    } else {
      done' := done + [];
      assert done' == done;
    }
  }

  lemma {:induction false} RenderLinesAppend(a: seq<Line>, b: seq<Line>)
    ensures RenderLines(a + b) == RenderLines(a) + RenderLines(b)
    decreases |a|
  {
    if a == [] {
      assert a + b == b;
    } else {
      assert (a + b)[0] == a[0];
      assert (a + b)[1..] == a[1..] + b;
      RenderLinesAppend(a[1..], b);
      ConcatAssoc(LineText(a[0]), RenderLines(a[1..]), RenderLines(b));
    }
  }

  // The shape of the text.

  /** The text of lines ending with `l` is the text of the lines before it, then the text of `l`. */
  lemma RenderAppendOne(init: seq<Line>, l: Line)
    ensures Render(init + [l]) == Render(init) + LineText(l)
  {
    RenderLinesAppend(init, [l]);
    assert RenderLines([l]) == LineText(l) + RenderLines([]);
    ConcatAssoc(Header, RenderLines(init), LineText(l));
  }

  /** The text of the `Terminal` line, which ends with the last letter of `true` or `false`. */
  lemma TerminalLineText(terminal: bool)
    ensures var last := LineText(Line(Terminal, BoolText(terminal)));
            last == "\nTerminal=" + BoolText(terminal) && last[|last| - 1] == 'e'
  {
  }

  /** The text `t` of lines that end with a `Terminal` line: the header first, that line last. */
  lemma RenderFrame(ls: seq<Line>, terminal: bool, t: string)
    requires |ls| > 0 && ls[|ls| - 1] == Line(Terminal, BoolText(terminal))
    requires t == Render(ls)
    ensures var last := "\nTerminal=" + BoolText(terminal);
            && |t| > |Header| && t[..|Header|] == Header
            && |t| >= |last| && t[|t| - |last|..] == last
            && t[|t| - 1] == 'e'
  {
    var init := ls[..|ls| - 1];
    var l := ls[|ls| - 1];
    assert ls == init + [l];
    RenderAppendOne(init, l);
    TerminalLineText(terminal);
    SuffixOfConcat(Render(init), LineText(l));
    PrefixOfConcat(Header, RenderLines(ls));
  }

  /** The body starts with the header and ends with the `Terminal=` line, so never with a line break. */
  lemma BodyFrame(d: DesktopData)
    ensures var t := Body(d);
            var last := "\nTerminal=" + BoolText(d.terminal);
            && |t| > |Header| && t[..|Header|] == Header
            && |t| >= |last| && t[|t| - |last|..] == last
            && t[|t| - 1] == 'e'
  {
    RenderFrame(Entries(d), d.terminal, Body(d));
  }

  // Which lines are written, and in which order.

  /** The keys of `ls` strictly follow the fixed order: each key at most once, earlier keys first. */
  predicate InKeyOrder(ls: seq<Line>) {
    forall i, j :: 0 <= i < j < |ls| ==> Rank(ls[i].key) < Rank(ls[j].key)
  }

  /** Every key of `ls` comes before position `n` of the fixed order. */
  predicate RanksBelow(ls: seq<Line>, n: nat) {
    forall i :: 0 <= i < |ls| ==> Rank(ls[i].key) < n
  }

  /** Appending at most one line with key `k` after lines whose keys all come before `k` keeps the order. */
  lemma OrderStep(done: seq<Line>, piece: seq<Line>, k: Key)
    requires InKeyOrder(done) && RanksBelow(done, Rank(k))
    requires piece == [] || piece == [Line(k, piece[0].value)]
    ensures InKeyOrder(done + piece) && RanksBelow(done + piece, Rank(k) + 1)
  {
    if piece == [] {
      assert done + piece == done;
    }
  }

  /** The lines for any values have their keys in the fixed order. */
  lemma LinesForInKeyOrder(appType: string, name: string, comment: string, icon: string, categories: string,
                           mimeTypes: string, exec: string, terminal: string)
    ensures InKeyOrder(LinesFor(appType, name, comment, icon, categories, mimeTypes, exec, terminal))
  {
    var q: seq<Line> := [];
    OrderStep(q, [Line(Type, appType)], Type);
    q := q + [Line(Type, appType)];
    OrderStep(q, [Line(Name, name)], Name);
    q := q + [Line(Name, name)];
    OrderStep(q, OptionalLine(Comment, comment), Comment);
    q := q + OptionalLine(Comment, comment);
    OrderStep(q, OptionalLine(Icon, icon), Icon);
    q := q + OptionalLine(Icon, icon);
    OrderStep(q, OptionalLine(Categories, categories), Categories);
    q := q + OptionalLine(Categories, categories);
    OrderStep(q, OptionalLine(MimeType, mimeTypes), MimeType);
    q := q + OptionalLine(MimeType, mimeTypes);
    OrderStep(q, [Line(Exec, exec)], Exec);
    q := q + [Line(Exec, exec)];
    OrderStep(q, [Line(Terminal, terminal)], Terminal);
    q := q + [Line(Terminal, terminal)];
    assert [] + [Line(Type, appType)] == [Line(Type, appType)];
  }

  /**
   * The written keys follow the order Type, Name, Comment, Icon, Categories,
   * MimeType, Exec, Terminal, each at most once.
   */
  lemma EntriesInKeyOrder(d: DesktopData)
    ensures InKeyOrder(Entries(d))
  {
    LinesForInKeyOrder(d.appType, Trim(d.appName), Trim(d.comment), Trim(d.iconFilename), Trim(d.categories),
                       Trim(d.extensions), Trim(d.execCommand), BoolText(d.terminal));
  }

  /** The lines for given values hold the Type, Name, Exec and Terminal lines. */
  lemma LinesForRequired(appType: string, name: string, comment: string, icon: string, categories: string,
                         mimeTypes: string, exec: string, terminal: string)
    ensures var ls := LinesFor(appType, name, comment, icon, categories, mimeTypes, exec, terminal);
      && Line(Type, appType) in ls && Line(Name, name) in ls
      && Line(Exec, exec) in ls && Line(Terminal, terminal) in ls
  {
  }

  /** The lines for given values hold a line for an optional key with value `v` exactly when `v` is that key's non-empty value. */
  lemma LinesForOptional(appType: string, name: string, comment: string, icon: string, categories: string,
                         mimeTypes: string, exec: string, terminal: string, v: string)
    ensures var ls := LinesFor(appType, name, comment, icon, categories, mimeTypes, exec, terminal);
      && (Line(Comment, v) in ls <==> |comment| > 0 && v == comment)
      && (Line(Icon, v) in ls <==> |icon| > 0 && v == icon)
      && (Line(Categories, v) in ls <==> |categories| > 0 && v == categories)
      && (Line(MimeType, v) in ls <==> |mimeTypes| > 0 && v == mimeTypes)
  {
  }

  /**
   * The Type, Name, Exec and Terminal lines are always written; each optional
   * line is written exactly when its field is not blank, and then carries the
   * trimmed field.
   */
  lemma EntriesContent(d: DesktopData)
    ensures Line(Type, d.appType) in Entries(d)
    ensures Line(Name, Trim(d.appName)) in Entries(d)
    ensures Line(Exec, Trim(d.execCommand)) in Entries(d)
    ensures Line(Terminal, BoolText(d.terminal)) in Entries(d)
    ensures forall v :: Line(Comment, v) in Entries(d) <==> !AllWhitespace(d.comment) && v == Trim(d.comment)
    ensures forall v :: Line(Icon, v) in Entries(d) <==> !AllWhitespace(d.iconFilename) && v == Trim(d.iconFilename)
    ensures forall v :: Line(Categories, v) in Entries(d) <==> !AllWhitespace(d.categories) && v == Trim(d.categories)
    ensures forall v :: Line(MimeType, v) in Entries(d) <==> !AllWhitespace(d.extensions) && v == Trim(d.extensions)
  {
    TrimSpec(d.comment);
    TrimSpec(d.iconFilename);
    TrimSpec(d.categories);
    TrimSpec(d.extensions);
    LinesForRequired(d.appType, Trim(d.appName), Trim(d.comment), Trim(d.iconFilename), Trim(d.categories),
                     Trim(d.extensions), Trim(d.execCommand), BoolText(d.terminal));
    forall v {
      LinesForOptional(d.appType, Trim(d.appName), Trim(d.comment), Trim(d.iconFilename), Trim(d.categories),
                       Trim(d.extensions), Trim(d.execCommand), BoolText(d.terminal), v);
    }
  }

  /**
   * The file of a record that passes validation has a non-blank Name line, a
   * non-blank Exec line and an Icon line with the trimmed icon file name.
   */
  lemma ValidRecordLines(d: DesktopData)
    requires Validate(d).Ok?
    ensures Line(Name, Trim(d.appName)) in Entries(d) && Trim(d.appName) != []
    ensures Line(Exec, Trim(d.execCommand)) in Entries(d) && Trim(d.execCommand) != []
    ensures Line(Icon, Trim(d.iconFilename)) in Entries(d) && Trim(d.iconFilename) != []
  {
    TrimSpec(d.appName);
    TrimSpec(d.execCommand);
    EntriesContent(d);
  }
}
