/**
 * The part of Rust's `std::path::PathBuf` the file-name derivation uses, on
 * Unix: `push` of a string and `set_extension`. A path is modelled by the
 * components Rust's `Path::components` yields for it, which is what decides the
 * file the path names and what `file_name`/`set_extension` act on.
 */
module Paths {
  import opened Results
  import opened Text

  /** A component after the root: an ordinary name, or `..`. */
  datatype Component = Normal(name: string) | ParentDir

  /** `rooted` when the path starts at `/`; `parts` are its components in order. */
  datatype Path = Path(rooted: bool, parts: seq<Component>)

  /** An ordinary component: non-empty, no separator, neither `.` nor `..`. */
  predicate IsPlainName(s: string) {
    s != [] && '/' !in s && s != "." && s != ".."
  }

  /** The pieces of `s` between `/` separators, empty pieces included. */
  function Segments(s: string): (segs: seq<string>)
    ensures |segs| > 0
    decreases |s|
  {
    var seg := Before(s, '/');
    if |seg| == |s| then [s] else [seg] + Segments(s[|seg| + 1..])
  }

  /** The components of the segments: empty and `.` pieces vanish, `..` is ParentDir. */
  function ComponentsOf(segs: seq<string>): seq<Component> {
    if segs == [] then []
    else
      var seg := segs[0];
      var head := if seg == [] || seg == "." then []
                  else if seg == ".." then [ParentDir]
                  else [Normal(seg)];
      head + ComponentsOf(segs[1..])
  }

  /** The path a string denotes. */
  function ParsePath(s: string): Path {
    Path(|s| > 0 && s[0] == '/', ComponentsOf(Segments(s)))
  }

  /** `PathBuf::push`: an absolute argument replaces the path, a relative one is appended. */
  function Push(p: Path, s: string): (r: Path)
    ensures s != [] && s[0] == '/' ==> r == ParsePath(s)
    ensures !(s != [] && s[0] == '/') ==>
              r.rooted == p.rooted && |p.parts| <= |r.parts| && r.parts[..|p.parts|] == p.parts
  {
    var q := ParsePath(s);
    if q.rooted then q else Path(p.rooted, p.parts + q.parts)
  }

  /** `Path::file_name`: the last component when it is an ordinary name. */
  function FileName(p: Path): (r: Option<string>)
    ensures r.Some? <==> |p.parts| > 0 && p.parts[|p.parts| - 1].Normal?
  {
    if |p.parts| > 0 && p.parts[|p.parts| - 1].Normal? then Some(p.parts[|p.parts| - 1].name) else None
  }

  /** The index of the last `.` of `n`. */
  function LastDot(n: string): (r: Option<nat>)
    ensures r.Some? ==> r.value < |n| && n[r.value] == '.' && '.' !in n[r.value + 1..]
    ensures r.None? <==> '.' !in n
  {
    if n == [] then None
    else if n[|n| - 1] == '.' then Some(|n| - 1)
    else
      var r := LastDot(n[..|n| - 1]);
      assert n == n[..|n| - 1] + [n[|n| - 1]];
      r
  }

  /**
   * `Path::file_stem`: the name up to its last `.`, or the whole name when it has
   * no `.`, when its only leading part before the last `.` is empty (`.bashrc`)
   * or when it is `..`.
   */
  function FileStem(n: string): string {
    if n == ".." then n
    else
      match LastDot(n)
      case None => n
      case Some(i) => if i == 0 then n else n[..i]
  }

  /**
   * `PathBuf::set_extension`: the last component, when it is a name, becomes its
   * stem followed by `.` and `ext` (just the stem when `ext` is empty); a path
   * without a file name is left as it is.
   */
  function SetExtension(p: Path, ext: string): Path {
    match FileName(p)
    case None => p
    case Some(n) =>
      var stem := FileStem(n);
      Path(p.rooted, p.parts[..|p.parts| - 1] + [Normal(if ext == [] then stem else stem + "." + ext)])
  }

  /** A string without `/` is a single segment. */
  lemma SegmentsWithoutSlash(s: string)
    requires '/' !in s
    ensures Segments(s) == [s]
  {
    assert |Before(s, '/')| == |s|;
  }

  /** A plain name parses to itself, as one relative component. */
  lemma ParsePlainName(s: string)
    requires IsPlainName(s)
    ensures ParsePath(s) == Path(false, [Normal(s)])
  {
    SegmentsWithoutSlash(s);
    assert [s][1..] == [];
    assert ComponentsOf([s]) == [Normal(s)] + ComponentsOf([]);
  }

  /** Pushing a plain name appends exactly that one component. */
  lemma PushPlainName(p: Path, s: string)
    requires IsPlainName(s)
    ensures Push(p, s) == Path(p.rooted, p.parts + [Normal(s)])
  {
    ParsePlainName(s);
  }

  /** `..` is the one relative component ParentDir. */
  lemma ParseDotDot()
    ensures ParsePath("..") == Path(false, [ParentDir])
  {
    SegmentsWithoutSlash("..");
    assert ComponentsOf([".."]) == [ParentDir] + ComponentsOf([]);
  }

  /** A path ending in `..` has no file name, so setting an extension leaves it as it is. */
  lemma SetExtensionOfParentDir(p: Path, ext: string)
    requires |p.parts| > 0 && p.parts[|p.parts| - 1] == ParentDir
    ensures SetExtension(p, ext) == p
  {
  }

  /** Without a `.`, the stem is the whole name. */
  lemma StemWithoutDot(n: string)
    requires '.' !in n
    ensures FileStem(n) == n
  {
  }

  /** With a non-empty part before the last `.`, the stem drops the last `.` and what follows. */
  lemma StemDropsExtension(a: string, b: string)
    requires a != [] && '.' !in b && a + "." + b != ".."
    ensures FileStem(a + "." + b) == a
  {
    var n := a + "." + b;
    assert n[|a|] == '.';
    assert n[|a| + 1..] == b;
    assert n[..|a|] == a;
    var r := LastDot(n);
    assert r.Some?;
    assert r.value == |a|;
  }

  /** Setting the extension of a path whose last component is a plain name. */
  lemma SetExtensionOfName(p: Path, n: string, ext: string)
    requires IsPlainName(n)
    requires ext != []
    ensures SetExtension(Path(p.rooted, p.parts + [Normal(n)]), ext)
            == Path(p.rooted, p.parts + [Normal(FileStem(n) + "." + ext)])
  {
    var q := Path(p.rooted, p.parts + [Normal(n)]);
    assert q.parts[..|q.parts| - 1] == p.parts;
  }
}
