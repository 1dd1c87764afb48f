/**
 * File-system paths as strings with `/` as separator, and the parts of
 * `std::path::Path` the program uses: `file_name`, `extension`, `file_stem`
 * and `set_extension`.
 */
module Paths {
  import opened Wrappers
  import opened Text

  type Path = string

  /** A path whose last component is a `.` after a separator, as in `foo/.`. */
  predicate EndsInCurDir(p: Path)
  {
    |p| >= 2 && p[|p| - 1] == '.' && p[|p| - 2] == '/'
  }

  /**
   * The path without its trailing separators and trailing `.` components:
   * `Path::components` skips both, except for a `.` that starts the path.
   */
  function TrimTrailingSeparators(p: Path): (r: Path)
    ensures |r| <= |p| && r == p[..|r|]
    ensures r == [] || r[|r| - 1] != '/'
    ensures !EndsInCurDir(r)
  {
    if p != [] && (p[|p| - 1] == '/' || EndsInCurDir(p)) then TrimTrailingSeparators(p[..|p| - 1]) else p
  }

  /** The text after the last separator of the trimmed path. */
  function LastComponent(p: Path): (c: string)
    ensures '/' !in c
  {
    var t := TrimTrailingSeparators(p);
    match LastIndexOf(t, '/')
    case None => t
    case Some(i) => t[i + 1..]
  }

  /**
   * `Path::file_name`: the final component once trailing separators and
   * `.` components are dropped (`foo/.` has the file name `foo`); absent
   * for an empty path, a root, `.` or `..`.
   */
  function FileName(p: Path): (r: Option<string>)
    ensures r.Some? ==> r.value != [] && '/' !in r.value && r.value != "." && r.value != ".."
  {
    var c := LastComponent(p);
    if c == [] || c == "." || c == ".." then None else Some(c)
  }

  /**
   * Where a file name splits into stem and extension (`rsplitn(2, '.')`):
   * the last `.` unless it is the first character.
   */
  function ExtensionDot(name: string): (r: Option<nat>)
    ensures r.Some? ==> 0 < r.value < |name| && name[r.value] == '.' && '.' !in name[r.value + 1..]
    ensures r.None? ==> forall i :: 0 < i < |name| ==> name[i] != '.'
  {
    match LastIndexOf(name, '.')
    case None => None
    case Some(i) => if i == 0 then None else Some(i)
  }

  /** `Path::extension`: what follows the last `.` of the file name, if that `.` is not its first character. */
  function Extension(p: Path): (r: Option<string>)
    ensures r.Some? ==> '.' !in r.value && '/' !in r.value
  {
    match FileName(p)
    case None => None
    case Some(name) =>
      match ExtensionDot(name)
      case None => None
      case Some(i) => Some(name[i + 1..])
  }

  /** `Path::file_stem`: the file name without its extension. */
  function FileStem(p: Path): (r: Option<string>)
    ensures r.Some? ==> r.value != [] && '/' !in r.value
    ensures FileName(p).Some? <==> r.Some?
  {
    match FileName(p)
    case None => None
    case Some(name) =>
      match ExtensionDot(name)
      case None => Some(name)
      case Some(i) => Some(name[..i])
  }

  /** The trimmed path up to and including the separator before its last component. */
  function DirPrefix(p: Path): (d: string)
    ensures TrimTrailingSeparators(p) == d + LastComponent(p)
    ensures d == [] || d[|d| - 1] == '/'
  {
    var t := TrimTrailingSeparators(p);
    LastComponentSplit(p);
    t[..|t| - |LastComponent(p)|]
  }

  /**
   * `PathBuf::set_extension`: with no file name the path is unchanged;
   * otherwise it is cut right after the file stem and, when `ext` is not
   * empty, `.` and `ext` are appended.
   */
  function SetExtension(p: Path, ext: string): Path
  {
    match FileStem(p)
    case None => p
    case Some(stem) =>
      DirPrefix(p) + (if ext == [] then stem else stem + "." + ext)
  }

  /** Appending text without `c` does not move the last occurrence of `c`. */
  lemma {:induction false} LastIndexOfConcat(a: string, b: string, c: char)
    requires c !in b
    ensures LastIndexOf(a + b, c) == LastIndexOf(a, c)
    decreases |b|
  {
    if b == [] {
      assert a + b == a;
    } else {
      assert (a + b)[..|a + b| - 1] == a + b[..|b| - 1];
      LastIndexOfConcat(a, b[..|b| - 1], c);
    }
  }

  /** A name appended after a separator (or to nothing) is the last component. */
  lemma LastComponentOfAppend(prefix: string, name: string)
    requires prefix == [] || prefix[|prefix| - 1] == '/'
    requires name != [] && '/' !in name && name != "."
    ensures TrimTrailingSeparators(prefix + name) == prefix + name
    ensures LastComponent(prefix + name) == name
  {
    LastIndexOfConcat(prefix, name, '/');
    if prefix != [] {
      assert LastIndexOf(prefix, '/') == Some(|prefix| - 1);
      assert (prefix + name)[|prefix|..] == name;
    } else {
      assert prefix + name == name;
    }
  }

  /** The trimmed path is its directory part followed by the last component. */
  lemma LastComponentSplit(p: Path)
    ensures var t := TrimTrailingSeparators(p); var k := |t| - |LastComponent(p)|;
      t == t[..k] + LastComponent(p) && (k == 0 || t[k - 1] == '/')
  {
    var t := TrimTrailingSeparators(p);
    var c := LastComponent(p);
    var k := |t| - |c|;
    var sep := LastIndexOf(t, '/');
    if sep.Some? {
      var i := sep.value;
      assert c == t[i + 1..];
      assert k == i + 1 && t[k - 1] == '/';
      assert t[..k] + c == t;
    } else {
      assert c == t && k == 0;
      assert t[..k] + c == t;
    }
  }

  /** `stem.ext` splits at the dot that was put between them. */
  lemma ExtensionDotOfJoined(stem: string, ext: string)
    requires stem != [] && '.' !in ext
    ensures ExtensionDot(stem + "." + ext) == Some(|stem|)
    ensures (stem + "." + ext)[..|stem|] == stem && (stem + "." + ext)[|stem| + 1..] == ext
  {
    LastIndexOfConcat(stem + ".", ext, '.');
    assert stem + "." + ext == (stem + ".") + ext;
    assert LastIndexOf(stem + ".", '.') == Some(|stem|);
  }

  lemma SetExtensionShape(p: Path, ext: string)
    requires FileName(p).Some? && ext != []
    ensures SetExtension(p, ext) == DirPrefix(p) + (FileStem(p).value + "." + ext)
  {
  }

  /** `set_extension` keeps the directory and renames the final component to `stem.ext`. */
  lemma FileNameOfSetExtension(p: Path, ext: string)
    requires FileName(p).Some?
    requires ext != [] && '/' !in ext
    ensures FileName(SetExtension(p, ext)) == Some(FileStem(p).value + "." + ext)
  {
    var name := FileStem(p).value + "." + ext;
    assert '/' !in name && |name| >= 3;
    SetExtensionShape(p, ext);
    FileNameOfAppend(DirPrefix(p), name);
  }

  lemma FileNameOfAppend(d: string, name: string)
    requires d == [] || d[|d| - 1] == '/'
    requires |name| >= 3 && '/' !in name
    ensures FileName(d + name) == Some(name)
  {
    LastComponentOfAppend(d, name);
  }

  /** After `set_extension` with a plain extension, the path's extension is that one and its stem is kept. */
  lemma SetExtensionHasExtension(p: Path, ext: string)
    requires FileName(p).Some?
    requires ext != [] && '.' !in ext && '/' !in ext
    ensures Extension(SetExtension(p, ext)) == Some(ext)
    ensures FileStem(SetExtension(p, ext)) == FileStem(p)
  {
    var stem := FileStem(p).value;
    var name := stem + "." + ext;
    var q := SetExtension(p, ext);
    FileNameOfSetExtension(p, ext);
    ExtensionDotOfJoined(stem, ext);
    assert Extension(q) == Some(name[|stem| + 1..]);
    assert FileStem(q) == Some(name[..|stem|]);
  }

  /** A path ending in `stem.ext` after a separator (or nothing) has that file name, extension and stem. */
  lemma JoinedPathParts(d: string, stem: string, ext: string)
    requires d == [] || d[|d| - 1] == '/'
    requires stem != [] && '/' !in stem && ext != [] && '.' !in ext && '/' !in ext
    ensures FileName(d + (stem + "." + ext)) == Some(stem + "." + ext)
    ensures Extension(d + (stem + "." + ext)) == Some(ext)
    ensures FileStem(d + (stem + "." + ext)) == Some(stem)
  {
    var name := stem + "." + ext;
    assert '/' !in name;
    FileNameOfAppend(d, name);
    ExtensionDotOfJoined(stem, ext);
  }

  /** A trailing `.` component is skipped: `foo/.` names the file `foo`, and `set_extension` renames it `foo.eln`. */
  lemma TrailingCurDirSkipped()
    ensures FileName("foo/.") == Some("foo")
    ensures SetExtension("foo/.", "eln") == "foo.eln"
  {
    assert TrimTrailingSeparators("foo/.") == TrimTrailingSeparators("foo/");
    assert TrimTrailingSeparators("foo/") == "foo";
    assert LastIndexOf("foo", '/') == None;
    assert DirPrefix("foo/.") == [];
  }
}
