/**
 * File-system paths as normalised component lists, with the `Path` and
 * `PathBuf` operations the system uses: `join`, `parent`, `file_name`,
 * `starts_with`, `strip_prefix`, `components` and `display`.
 */
module Paths {
  import opened Wrappers
  import opened Text

  /** A path: whether it starts at the root, and its normal components. */
  datatype Path = Path(absolute: bool, parts: seq<string>)

  /** A normal component is non-empty and holds no separator. */
  predicate IsComponent(c: string)
  {
    c != [] && '/' !in c
  }

  predicate WellFormed(p: Path)
  {
    forall i :: 0 <= i < |p.parts| ==> IsComponent(p.parts[i])
  }

  /** The first index at or after `from` holding '/', or |s| when there is none. */
  function SlashIndex(s: string, from: nat): (i: nat)
    requires from <= |s|
    ensures from <= i <= |s|
    ensures i < |s| ==> s[i] == '/'
    ensures forall k :: from <= k < i ==> s[k] != '/'
    decreases |s| - from
  {
    if from == |s| || s[from] == '/' then from else SlashIndex(s, from + 1)
  }

  /** The non-empty pieces of `s` between '/' separators. */
  function Components(s: string): (r: seq<string>)
    ensures forall i :: 0 <= i < |r| ==> IsComponent(r[i])
    decreases |s|
  {
    if s == [] then []
    else
      var i := SlashIndex(s, 0);
      var head := if i == 0 then [] else [s[..i]];
      assert forall k :: 0 <= k < i ==> s[..i][k] == s[k];
      if i == |s| then head else head + Components(s[i + 1..])
  }

  /** `Path::new(s)`: absolute exactly when `s` starts with '/'. */
  function FromString(s: string): (p: Path)
    ensures WellFormed(p)
    ensures p.absolute <==> (s != [] && s[0] == '/')
  {
    Path(s != [] && s[0] == '/', Components(s))
  }

  /** `Path::display()`: components joined by '/', after a leading '/' when absolute. */
  function Display(p: Path): string
  {
    (if p.absolute then "/" else "") + Join(p.parts, "/")
  }

  /** `base.join(rel)`: an absolute `rel` replaces `base`, a relative one extends it. */
  function JoinPath(base: Path, rel: Path): (r: Path)
    ensures WellFormed(base) && WellFormed(rel) ==> WellFormed(r)
  {
    if rel.absolute then rel else Path(base.absolute, base.parts + rel.parts)
  }

  /** `base.join(s)` for a string argument. */
  function JoinStr(base: Path, s: string): (r: Path)
    ensures WellFormed(base) ==> WellFormed(r)
  {
    JoinPath(base, FromString(s))
  }

  /** `Path::file_name()`: the last component. */
  function FileName(p: Path): Option<string>
  {
    if p.parts == [] then None else Some(p.parts[|p.parts| - 1])
  }

  /** `Path::parent()`: the path without its last component; `None` for a root or empty path. */
  function Parent(p: Path): Option<Path>
  {
    if p.parts == [] then None else Some(Path(p.absolute, p.parts[..|p.parts| - 1]))
  }

  /** `Path::starts_with(base)`: `base`'s components are a prefix of `p`'s. */
  predicate StartsWith(p: Path, base: Path)
  {
    p.absolute == base.absolute && |base.parts| <= |p.parts| && p.parts[..|base.parts|] == base.parts
  }

  /** `Path::strip_prefix(base)`: the relative remainder when `p` starts with `base`. */
  function StripPrefix(p: Path, base: Path): (r: Option<Path>)
    ensures r.Some? <==> StartsWith(p, base)
    ensures r.Some? ==> !r.value.absolute && JoinPath(base, r.value) == p
  {
    if StartsWith(p, base) then
      assert base.parts + p.parts[|base.parts|..] == p.parts;
      Some(Path(false, p.parts[|base.parts|..]))
    else None
  }

  /** Joining a relative path onto `base` and stripping `base` again gives it back. */
  lemma StripJoinRoundTrip(base: Path, rel: Path)
    requires !rel.absolute
    ensures StripPrefix(JoinPath(base, rel), base) == Some(rel)
  {
    var p := JoinPath(base, rel);
    assert p.parts[..|base.parts|] == base.parts;
    assert p.parts[|base.parts|..] == rel.parts;
  }

  /** Joining a single component: its parent is the base and its file name the component. */
  lemma JoinComponent(base: Path, c: string)
    ensures Parent(JoinPath(base, Path(false, [c]))) == Some(base)
    ensures FileName(JoinPath(base, Path(false, [c]))) == Some(c)
  {
    assert (base.parts + [c])[..|base.parts|] == base.parts;
  }

  /**
   * `path.components().map(|c| c.as_os_str().to_string_lossy()).join("/")`:
   * the root of an absolute path is a component spelled "/".
   */
  function FormatComponents(p: Path): (r: string)
    ensures !p.absolute ==> r == Display(p)
  {
    assert [] + p.parts == p.parts;
    Join((if p.absolute then ["/"] else []) + p.parts, "/")
  }
}
