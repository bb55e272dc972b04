/**
 * Reading back the text the writer produces: the header, then `key=value`
 * lines each introduced by a line break. This is the inverse the file
 * layout is checked against; the launcher creator itself never reads files.
 */
module EntryParse {
  import opened Results
  import opened Text
  import opened Desktop
  import opened EntryFile

  /** The key spelled `s`, if it is one of the keys the writer knows. */
  function KeyOf(s: string): (r: Option<Key>)
    ensures r.Some? ==> KeyText(r.value) == s
  {
    if s == "Type" then Some(Type)
    else if s == "Name" then Some(Name)
    else if s == "Comment" then Some(Comment)
    else if s == "Icon" then Some(Icon)
    else if s == "Categories" then Some(Categories)
    else if s == "MimeType" then Some(MimeType)
    else if s == "Exec" then Some(Exec)
    else if s == "Terminal" then Some(Terminal)
    else None
  }

  /** Every key is read back from its spelling, and the spelling holds neither `=` nor a line break. */
  lemma KeyTextRoundTrip(k: Key)
    ensures KeyOf(KeyText(k)) == Some(k)
    ensures '=' !in KeyText(k) && '\n' !in KeyText(k)
  {
  }

  /** A `key=value` line without its leading line break; the key ends at the first `=`. */
  function ParseLine(s: string): (r: Option<Line>)
    ensures r.Some? ==> s == KeyText(r.value.key) + "=" + r.value.value
  {
    var k := Before(s, '=');
    if |k| == |s| then None
    else
      match KeyOf(k)
      case None => None
      case Some(key) =>
        assert s == k + "=" + s[|k| + 1..];
        Some(Line(key, s[|k| + 1..]))
  }

  /** Lines, each a line break followed by a `key=value` line running to the next line break. */
  function ParseLines(s: string): (r: Option<seq<Line>>)
    ensures r.Some? ==> RenderLines(r.value) == s
    decreases |s|
  {
    if s == [] then Some([])
    else if s[0] != '\n' then None
    else
      var rest := s[1..];
      var text := Before(rest, '\n');
      var after := rest[|text|..];
      assert rest == text + after;
      match ParseLine(text)
      case None => None
      case Some(l) =>
        match ParseLines(after)
        case None => None
        case Some(ls) =>
          Reassemble(s, text, after, l, ls);
          Some([l] + ls)
  }

  /** The text of a line is a line break followed by `key=value`. */
  lemma LineTextSplit(l: Line)
    ensures LineText(l) == "\n" + (KeyText(l.key) + "=" + l.value)
  {
    ConcatAssoc("\n" + KeyText(l.key), "=", l.value);
    ConcatAssoc("\n", KeyText(l.key), "=" + l.value);
    ConcatAssoc(KeyText(l.key), "=", l.value);
  }

  /** Putting a parsed line back in front of the lines parsed after it gives the text they came from. */
  lemma Reassemble(s: string, text: string, after: string, l: Line, ls: seq<Line>)
    requires |s| > 0 && s[0] == '\n' && s[1..] == text + after
    requires text == KeyText(l.key) + "=" + l.value
    requires RenderLines(ls) == after
    ensures RenderLines([l] + ls) == s
  {
    assert ([l] + ls)[1..] == ls;
    LineTextSplit(l);
    assert s == "\n" + s[1..];
    ConcatAssoc("\n", text, after);
  }

  /** A whole file: the header, then its lines. */
  function ParseBody(s: string): (r: Option<seq<Line>>)
    ensures r.Some? ==> Render(r.value) == s
  {
    if |s| >= |Header| && s[..|Header|] == Header then
      match ParseLines(s[|Header|..])
      case None => None
      case Some(ls) =>
        assert s == Header + s[|Header|..];
        Some(ls)
    else None
  }

  /** No value of `ls` holds a line break. */
  predicate SingleLineValues(ls: seq<Line>) {
    forall i :: 0 <= i < |ls| ==> '\n' !in ls[i].value
  }

  /** Reading one written line back. */
  lemma ParseLineText(l: Line)
    requires '\n' !in l.value
    ensures ParseLine(KeyText(l.key) + "=" + l.value) == Some(l)
  {
    var kt := KeyText(l.key);
    KeyTextRoundTrip(l.key);
    ConcatAssoc(kt, "=", l.value);
    BeforeConcat(kt, "=" + l.value, '=');
    var s := kt + "=" + l.value;
    assert s[|kt| + 1..] == l.value;
  }

  /** A written line followed by the text of further lines is read as that line, then those lines. */
  lemma ParseLinesCons(l: Line, tail: string)
    requires '\n' !in l.value
    requires tail == [] || tail[0] == '\n'
    ensures ParseLines(tail).Some? ==> ParseLines(LineText(l) + tail) == Some([l] + ParseLines(tail).value)
  {
    var a := KeyText(l.key) + "=" + l.value;
    var s := LineText(l) + tail;
    LineTextSplit(l);
    ConcatAssoc("\n", a, tail);
    assert s[1..] == a + tail;
    KeyTextRoundTrip(l.key);
    assert '\n' !in a;
    BeforeConcat(a, tail, '\n');
    assert (a + tail)[|a|..] == tail;
    ParseLineText(l);
  }

  /** Lines whose values are single-line are read back exactly from their text. */
  lemma {:induction false} ParseRenderLines(ls: seq<Line>)
    requires SingleLineValues(ls)
    ensures ParseLines(RenderLines(ls)) == Some(ls)
    decreases |ls|
  {
    if ls != [] {
      ParseRenderLines(ls[1..]);
      ParseLinesCons(ls[0], RenderLines(ls[1..]));
      assert [ls[0]] + ls[1..] == ls;
    }
  }

  /** A file `t` with single-line values is read back exactly as its lines. */
  lemma ParseRender(ls: seq<Line>, t: string)
    requires SingleLineValues(ls)
    requires t == Render(ls)
    ensures ParseBody(t) == Some(ls)
  {
    assert t[..|Header|] == Header;
    assert t[|Header|..] == RenderLines(ls);
    ParseRenderLines(ls);
  }

  /**
   * None of the values written for the record holds a line break: the type as
   * it is, the other fields once trimmed.
   */
  predicate SingleLineFields(d: DesktopData) {
    '\n' !in d.appType && '\n' !in Trim(d.appName) && '\n' !in Trim(d.comment) && '\n' !in Trim(d.iconFilename)
    && '\n' !in Trim(d.categories) && '\n' !in Trim(d.extensions) && '\n' !in Trim(d.execCommand)
  }

  /** The values of the lines for any single-line values are single-line. */
  lemma LinesForSingleLine(appType: string, name: string, comment: string, icon: string, categories: string,
                           mimeTypes: string, exec: string, terminal: bool)
    requires '\n' !in appType && '\n' !in name && '\n' !in comment && '\n' !in icon
    requires '\n' !in categories && '\n' !in mimeTypes && '\n' !in exec
    ensures SingleLineValues(LinesFor(appType, name, comment, icon, categories, mimeTypes, exec, BoolText(terminal)))
  {
  }

  /**
   * The file written for a record whose written values are single-line reads back as
   * exactly the lines the writer chose for it.
   */
  lemma ParseBodyOfBody(d: DesktopData)
    requires SingleLineFields(d)
    ensures ParseBody(Body(d)) == Some(Entries(d))
  {
    LinesForSingleLine(d.appType, Trim(d.appName), Trim(d.comment), Trim(d.iconFilename), Trim(d.categories),
                       Trim(d.extensions), Trim(d.execCommand), d.terminal);
    ParseRender(Entries(d), Body(d));
  }
}
