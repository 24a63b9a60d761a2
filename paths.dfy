/**
 * Paths as `std::path::Path` treats them on a Unix-like system: a path is either
 * absolute or relative and is otherwise its list of normal components.
 */
module Paths {
  import opened Wrappers
  import opened Strings

  datatype Path = Path(absolute: bool, components: seq<string>)

  /** A component that names something: not empty and not the current directory. */
  predicate IsNamedComponent(c: string) {
    c != "" && c != "." && '/' !in c
  }

  function KeepComponent(c: string): seq<string> {
    if c == "" || c == "." then [] else [c]
  }

  /** The components of '/'-separated text; empty components and "." are skipped. */
  function Components(s: string): (r: seq<string>)
    ensures forall i :: 0 <= i < |r| ==> IsNamedComponent(r[i])
    decreases |s|
  {
    match IndexOfChar(s, '/')
    case None => KeepComponent(s)
    case Some(k) => KeepComponent(s[..k]) + Components(s[k + 1..])
  }

  /** `PathBuf::from(s)`. */
  function PathOf(s: string): Path {
    Path(StartsWith(s, "/"), Components(s))
  }

  /** A plain file name is read as a relative path of that one component. */
  lemma PathOfName(name: string)
    requires '/' !in name && name != "" && name != "."
    ensures PathOf(name) == Path(false, [name])
  {
    assert IndexOfChar(name, '/').None?;
  }

  /** Text joined by a slash has the components of both parts, in order. */
  lemma {:induction false} ComponentsSlash(a: string, b: string)
    ensures Components(a + "/" + b) == Components(a) + Components(b)
    decreases |a|
  {
    match IndexOfChar(a, '/')
    case None =>
      ComponentsSplit(a, b);
    case Some(k) =>
      var x, y := a[..k], a[k + 1..];
      var rest := y + "/" + b;
      assert a + "/" + b == x + "/" + rest;
      ComponentsSplit(x, rest);
      ComponentsSlash(y, b);
      assert Components(a) == KeepComponent(x) + Components(y);
      ComponentsAssoc(KeepComponent(x), Components(y), Components(b));
  }

  lemma ComponentsAssoc(p: seq<string>, q: seq<string>, r: seq<string>)
    ensures p + (q + r) == p + q + r
  {
  }

  /** The first component of text is what comes before its first slash. */
  lemma ComponentsSplit(x: string, y: string)
    requires '/' !in x
    ensures Components(x + "/" + y) == KeepComponent(x) + Components(y)
  {
    var s := x + "/" + y;
    IndexOfCharAt(x, '/', y);
    assert s == x + ['/'] + y;
    assert s[..|x|] == x && s[|x| + 1..] == y;
  }

  /** Every component names something, as in every path read from text. */
  predicate WellFormed(p: Path) {
    forall i :: 0 <= i < |p.components| ==> IsNamedComponent(p.components[i])
  }

  lemma PathOfWellFormed(s: string)
    ensures WellFormed(PathOf(s))
  {
  }

  /** `Path::starts_with`: the same root, and `base`'s components lead `p`'s. */
  predicate StartsWithPath(p: Path, base: Path) {
    p.absolute == base.absolute
    && |base.components| <= |p.components| && p.components[..|base.components|] == base.components
  }

  /** Joining relative text extends the path; it starts with what it was joined to. */
  lemma JoinTextRelative(a: Path, b: string)
    requires !StartsWith(b, "/")
    ensures JoinText(a, b) == Path(a.absolute, a.components + Components(b))
    ensures StartsWithPath(JoinText(a, b), a)
  {
    assert (a.components + Components(b))[..|a.components|] == a.components;
  }

  /** `Path::join`: an absolute `b` replaces `a`; otherwise `b`'s components follow `a`'s. */
  function Join(a: Path, b: Path): (r: Path)
    ensures !b.absolute ==> r.absolute == a.absolute && r.components == a.components + b.components
    ensures b.absolute ==> r == b
  {
    if b.absolute then b else Path(a.absolute, a.components + b.components)
  }

  /** `Path::join` with text. */
  function JoinText(a: Path, b: string): Path {
    Join(a, PathOf(b))
  }

  /** Joining the empty text leaves a path as it is. */
  lemma JoinEmpty(a: Path)
    ensures JoinText(a, "") == a
  {
    assert PathOf("").components == [];
  }

  /** `Path::file_name`: the last component, unless there is none or it is "..". */
  function FileName(p: Path): (r: Option<string>)
    ensures r.Some? ==> p.components != [] && r.value == p.components[|p.components| - 1]
  {
    if p.components == [] || p.components[|p.components| - 1] == ".." then None
    else Some(p.components[|p.components| - 1])
  }

  /**
   * The two halves of a file name around its last dot (`rsplit_file_at_dot`): a name
   * without a dot, or whose only dot is its first character, has no extension.
   * The name ".." never reaches here, as `FileName` does not return it.
   */
  function SplitAtLastDot(name: string): (Option<string>, Option<string>) {
    match LastIndexOfChar(name, '.')
    case None => (None, Some(name))
    case Some(k) => if k == 0 then (Some(name), None) else (Some(name[..k]), Some(name[k + 1..]))
  }

  /** `Path::file_stem`. */
  function FileStem(p: Path): Option<string> {
    match FileName(p)
    case None => None
    case Some(name) =>
      var (before, after) := SplitAtLastDot(name);
      if before.Some? then before else after
  }

  /** `Path::extension`. */
  function Extension(p: Path): Option<string> {
    match FileName(p)
    case None => None
    case Some(name) =>
      var (before, after) := SplitAtLastDot(name);
      if before.Some? then after else None
  }

  /** A file name with a dot after its first character splits there into stem and extension. */
  lemma StemAndExtension(p: Path)
    requires FileName(p).Some?
    requires var name := FileName(p).value; LastIndexOfChar(name, '.').Some? && LastIndexOfChar(name, '.').value > 0
    ensures var name := FileName(p).value; var k := LastIndexOfChar(name, '.').value;
      FileStem(p) == Some(name[..k]) && Extension(p) == Some(name[k + 1..])
      && name == FileStem(p).value + "." + Extension(p).value
  {
    var name := FileName(p).value;
    var k := LastIndexOfChar(name, '.').value;
    assert name == name[..k] + "." + name[k + 1..];
  }
}
