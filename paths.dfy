/**
 * Paths, file names and the file system as the walkers and workers see it.
 * A path is the sequence of its components; the directory tree is a value;
 * what reading a file yields is given per path.
 */
module FileTree {
  import opened Wrappers

  /** A path, as its components (an absolute path's root is left implicit). */
  type Path = seq<string>

  /** `OsStr`: a platform string that may or may not be valid Unicode. */
  datatype OsStr = Unicode(s: string) | NonUnicode

  /** `OsStr::to_str`. */
  function ToStr(o: OsStr): (r: Option<string>)
    ensures r.Some? <==> o.Unicode?
    ensures r.Some? ==> o == Unicode(r.value)
  {
    match o
    case Unicode(s) => Some(s)
    case NonUnicode => None
  }

  /**
   * `Path::starts_with`: `base` is a prefix of `p` component by component,
   * so `/a/b` is under `/a` but `/a/bc` is not under `/a/b`.
   */
  predicate ComponentPrefix(base: Path, p: Path) {
    |base| <= |p| && p[..|base|] == base
  }

  /** Index of the last `'.'` of `name`, if any. */
  function LastDot(name: string): (r: Option<nat>)
    ensures r.Some? ==> r.value < |name| && name[r.value] == '.'
    ensures r.Some? ==> forall k :: r.value < k < |name| ==> name[k] != '.'
    ensures r.None? ==> forall k :: 0 <= k < |name| ==> name[k] != '.'
  {
    if name == [] then None
    else if name[|name| - 1] == '.' then Some(|name| - 1)
    else LastDot(name[..|name| - 1])
  }

  /**
   * The extension of a file name (`Path::extension`): what follows the last
   * `'.'`, unless there is no `'.'`, the only `'.'` leads the name (a hidden
   * file such as `.bashrc`), or the name is `..`.
   */
  function NameExtension(name: string): (r: Option<string>)
    ensures r.Some? ==> |r.value| < |name| && forall k :: 0 <= k < |r.value| ==> r.value[k] != '.'
    ensures (forall k :: 0 <= k < |name| ==> name[k] != '.') ==> r == None
  {
    if name == ".." then None
    else match LastDot(name)
      case None => None
      case Some(i) => if i == 0 then None else Some(name[i + 1..])
  }

  /** `Path::extension`: the extension of the last component, `None` for the empty path. */
  function Extension(p: Path): (r: Option<string>)
    ensures p == [] ==> r == None
    ensures r.Some? ==> forall k :: 0 <= k < |r.value| ==> r.value[k] != '.'
  {
    if p == [] then None else NameExtension(p[|p| - 1])
  }

  /** A name without a `'.'` has no extension. */
  lemma NoDotNoExtension(name: string)
    requires forall k :: 0 <= k < |name| ==> name[k] != '.'
    ensures NameExtension(name) == None
  {
  }

  /** `base.ext` has extension `ext` when `base` is not empty and `ext` has no `'.'`. */
  lemma ExtensionOfJoin(base: string, ext: string)
    requires base != [] && base + "." + ext != ".."
    requires forall k :: 0 <= k < |ext| ==> ext[k] != '.'
    ensures NameExtension(base + "." + ext) == Some(ext)
  {
    var name := base + "." + ext;
    var i := |base|;
    assert name[i] == '.';
    assert forall k :: i < k < |name| ==> name[k] == ext[k - i - 1];
    var d := LastDot(name);
    assert d.Some? && d.value == i;
    assert name[i + 1..] == ext;
  }

  /**
   * A directory tree as `fs::read_dir` would show it. A node is a regular
   * file, a directory with its entries in `read_dir` order, a directory
   * that cannot be read, something that is neither file nor directory, or an
   * entry that `read_dir` reported as an error.
   */
  datatype Node =
    | File(name: string)
    | Dir(name: string, children: seq<Node>)
    | Unreadable(name: string)
    | Special(name: string)
    | FailedEntry

  /** `Path::is_file`. */
  predicate IsFile(n: Node) {
    n.File?
  }

  /** `Path::is_dir`. */
  predicate IsDir(n: Node) {
    n.Dir? || n.Unreadable?
  }

  /** What reading one file gives: its text (`None` when it cannot be read as UTF-8 text) and its length (`None` when its metadata cannot be read). */
  datatype FileData = FileData(text: Option<string>, size: Option<nat>)

  /** The contents of the disk, by path. */
  type Disk = Path -> FileData
}
