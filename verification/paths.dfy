/**
 * java.nio.file.Path as the model needs it: a root flag and a list of name elements, none of
 * them empty. Java's empty path `Paths.get("")` is the relative path without name elements.
 * Paths are taken as already normalised: `..` elements can only lead a relative path.
 */
module Paths {
  import opened Wrappers

  datatype Path = Path(absolute: bool, names: seq<string>)

  /** Java's empty path `Paths.get("")`. */
  const EmptyPath := Path(false, [])

  /**
   * Path.getFileName(): the last name element. It is absent only for a root; the empty path
   * is its own file name, the empty name.
   */
  function FileName(p: Path): (r: Option<string>)
    ensures r.None? <==> p.absolute && |p.names| == 0
    ensures p == EmptyPath ==> r == Some("")
    ensures |p.names| > 0 ==> r == Some(p.names[|p.names| - 1])
  {
    if |p.names| > 0 then Some(p.names[|p.names| - 1])
    else if p.absolute then None
    else Some("")
  }

  /**
   * Path.getParent(): the path without its last element; absent for a root, for the empty
   * path and for a relative path with a single element.
   */
  function Parent(p: Path): (r: Option<Path>)
    ensures r.Some? <==> |p.names| > 1 || (p.absolute && |p.names| == 1)
    ensures r.Some? ==> r.value.absolute == p.absolute && r.value.names + [p.names[|p.names| - 1]] == p.names
  {
    if |p.names| == 0 || (!p.absolute && |p.names| == 1) then None
    else Some(Path(p.absolute, p.names[..|p.names| - 1]))
  }

  /**
   * Path.resolve(String) with at most one name element. The empty name is the empty path,
   * which resolves to `p` itself; a name resolved in the empty path has no parent.
   */
  function Resolve(p: Path, name: string): (r: Path)
    ensures name == "" ==> r == p
    ensures name != "" ==> FileName(r) == Some(name)
    ensures name != "" ==> Parent(r) == if p == EmptyPath then None else Some(p)
  {
    if name == "" then p else Path(p.absolute, p.names + [name])
  }

  /**
   * Path.resolve(Path): an absolute argument wins, the empty path on either side gives the
   * other one, and otherwise the argument is appended.
   */
  function ResolvePath(p: Path, other: Path): (r: Path)
    ensures other.absolute ==> r == other
    ensures other == EmptyPath ==> r == p
    ensures p == EmptyPath && !other.absolute ==> r == other
    ensures !other.absolute ==> r.absolute == p.absolute && r.names == p.names + other.names
  {
    if other.absolute then other else Path(p.absolute, p.names + other.names)
  }

  /** Path.resolveSibling(Path): resolve against the parent, or return the argument without one. */
  function ResolveSibling(p: Path, other: Path): (r: Path)
    ensures other.absolute || Parent(p).None? ==> r == other
    ensures Parent(p).Some? && !other.absolute && |other.names| == 1 ==>
      Parent(r) == Parent(p) && FileName(r) == FileName(other)
  {
    match Parent(p)
    case None => other
    case Some(dir) => ResolvePath(dir, other)
  }

  /** The number of leading name elements two lists share. */
  function CommonPrefix(a: seq<string>, b: seq<string>): (n: nat)
    ensures n <= |a| && n <= |b| && a[..n] == b[..n]
    ensures n < |a| && n < |b| ==> a[n] != b[n]
  {
    if |a| == 0 || |b| == 0 || a[0] != b[0] then 0 else 1 + CommonPrefix(a[1..], b[1..])
  }

  /** A list shares all of itself with any list it is a prefix of. */
  lemma {:induction false} CommonPrefixOfPrefix(a: seq<string>, b: seq<string>)
    requires a <= b
    ensures CommonPrefix(a, b) == |a|
  {
    if |a| > 0 {
      assert a[1..] <= b[1..];
      CommonPrefixOfPrefix(a[1..], b[1..]);
    }
  }

  /** `count` copies of the `..` element. */
  function Ups(count: nat): (r: seq<string>)
    ensures |r| == count && forall i :: 0 <= i < count ==> r[i] == ".."
  {
    if count == 0 then [] else [".."] + Ups(count - 1)
  }

  /**
   * `base` and `p` are both absolute or both relative, and the part of `base` below their
   * common prefix does not climb with `..` (no relative path could lead out of it).
   */
  predicate Relatable(base: Path, p: Path)
  {
    && base.absolute == p.absolute
    && ".." !in base.names[CommonPrefix(base.names, p.names)..]
  }

  /**
   * Path.relativize: the relative path leading from `base` to `p`. Mixing an absolute and a
   * relative path raises IllegalArgumentException, and so does a base whose part below the
   * common prefix holds `..`.
   */
  function Relativize(base: Path, p: Path): (r: Result<Path>)
    ensures r.Ok? <==> Relatable(base, p)
    ensures r.Err? ==> r.error == if base.absolute == p.absolute then NoRelativePath else MixedPaths
    ensures r.Ok? ==> !r.value.absolute
    ensures base == p ==> r == Ok(EmptyPath)
    ensures base.absolute == p.absolute && base.names <= p.names ==> r == Ok(Path(false, p.names[|base.names|..]))
    ensures r.Ok? ==> ResolvePath(base, r.value).absolute == p.absolute
  {
    if base == p then assert p.names[|base.names|..] == []; Ok(EmptyPath)
    else if base.absolute != p.absolute then Err(MixedPaths)
    else if base == EmptyPath then Ok(p)
    else
      var n := CommonPrefix(base.names, p.names);
      assert base.names <= p.names ==> Ups(|base.names| - n) + p.names[n..] == p.names[|base.names|..] by {
        if base.names <= p.names {
          CommonPrefixOfPrefix(base.names, p.names);
          assert Ups(0) == [];
        }
      }
      if ".." in base.names[n..] then Err(NoRelativePath)
      else Ok(Path(false, Ups(|base.names| - n) + p.names[n..]))
  }

  /** A base that climbs with `..` has no relative path to a target that does not. */
  lemma UpwardBaseFails(base: Path, p: Path)
    requires base.absolute == p.absolute && ".." in base.names && ".." !in p.names
    ensures Relativize(base, p) == Err(NoRelativePath)
  {
    var n := CommonPrefix(base.names, p.names);
    forall i | 0 <= i < n
      ensures base.names[i] != ".."
    {
      assert base.names[..n][i] == p.names[..n][i];
      assert p.names[i] in p.names;
    }
    var k :| 0 <= k < |base.names| && base.names[k] == "..";
    assert base.names[n..][k - n] == "..";
  }

  /**
   * Writing an image reference relative to the manifest's directory and resolving it as a
   * sibling of the manifest gives back the image path, whenever the image lies under that
   * directory.
   */
  lemma RelativizeThenResolveSibling(manifest: Path, image: Path)
    requires Parent(manifest).Some?
    requires Parent(manifest).value.absolute == image.absolute
    requires Parent(manifest).value.names <= image.names
    ensures Relativize(Parent(manifest).value, image).Ok?
    ensures ResolveSibling(manifest, Relativize(Parent(manifest).value, image).value) == image
  {
    var dir := Parent(manifest).value;
    var n := CommonPrefix(dir.names, image.names);
    CommonPrefixOfPrefix(dir.names, image.names);
    assert dir.names + image.names[n..] == image.names;
  }

  /** Relativizing a path resolved against `base` gives back the relative path that was resolved. */
  lemma ResolveThenRelativize(base: Path, q: Path)
    requires !q.absolute
    ensures Relativize(base, ResolvePath(base, q)) == Ok(q)
  {
    assert base.names <= base.names + q.names;
    assert (base.names + q.names)[|base.names|..] == q.names;
  }
}
