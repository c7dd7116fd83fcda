/** Resolving a path against a path of another file system (MorePaths.resolve).

    `Resolve` is the method as written in this revision: the loop over the
    roots of the first path's file system has an empty body, and the
    relative-path branch calls a stub that returns null. `ResolveIntended` is
    the behaviour that the method's tests describe; the file-tree copy uses
    it. The roots of the first path's file system (getRootDirectories, as
    strings) are a parameter.
 */
module MorePaths {
  import opened Wrappers
  import opened Nio

  const NO_ROOT: string := "path to resolve is absolute but has no root"
  const INCOMPATIBLE_ROOT: string := "root of path to resolve is incompatible with source path"
  const ROOT_NOT_ABSOLUTE: string := "path to resolve is not absolute but has a root"

  /** A resolved path, the null that the stub returns, or an
      UnresolvablePathException with its message. */
  datatype ResolveOutcome = Resolved(path: Path) | NullPath | Unresolvable(message: string)

  /** Path.resolve on one file system, with the rules of Unix paths: an
      absolute path wins, an empty path changes nothing, anything else is
      appended. */
  function NativeResolve(p: Path, q: Path): Path {
    if q.absolute then q
    else if q.root.None? && q.names == [] then p
    else p.(names := p.names + q.names)
  }

  /** fs.getPath(q.toString()) on a file system of the same provider: the same
      path, now on `fs`. */
  function Reparse(q: Path, onto: Path): Path {
    q.(fs := onto.fs, provider := onto.provider)
  }

  /** resolvePath2NotAbsolute: a stub. */
  function ResolvePath2NotAbsolute(path1: Path, path2: Path): ResolveOutcome {
    NullPath
  }

  /** MorePaths.resolve as written. The loop over `roots1` compares each root
      with the root of `path2` and does nothing with the answer, so it is not
      part of the result. */
  function Resolve(path1: Path, path2: Path, roots1: seq<string>): (r: ResolveOutcome)
    ensures r.Resolved? <==> path1.fs == path2.fs || path1.provider == path2.provider
    ensures r.Resolved? ==> r.path.fs == path1.fs
    ensures r.Unresolvable? ==> path2.absolute
  {
    if path1.fs == path2.fs then Resolved(NativeResolve(path1, path2))
    else if path1.provider == path2.provider then Resolved(NativeResolve(path1, Reparse(path2, path1)))
    else if !path2.absolute then ResolvePath2NotAbsolute(path1, path2)
    else if path2.root.None? then Unresolvable(NO_ROOT)
    else Unresolvable(INCOMPATIBLE_ROOT)
  }

  /** The branches are taken in a fixed order (same file system, same
      provider, relative, rootless) and each outcome belongs to exactly one of
      them; across providers an absolute path with a root is always refused. */
  lemma ResolveBranches(path1: Path, path2: Path, roots1: seq<string>)
    ensures var r := Resolve(path1, path2, roots1);
      (r.Resolved? <==> path1.fs == path2.fs || path1.provider == path2.provider)
      && (r.NullPath? <==> path1.fs != path2.fs && path1.provider != path2.provider && !path2.absolute)
      && (r == Unresolvable(NO_ROOT) <==>
            path1.fs != path2.fs && path1.provider != path2.provider && path2.absolute && path2.root.None?)
      && (r == Unresolvable(INCOMPATIBLE_ROOT) <==>
            path1.fs != path2.fs && path1.provider != path2.provider && path2.absolute && path2.root.Some?)
  {
  }

  /** On one file system the result is path1.resolve(path2); on two file
      systems of one provider, path2 is first re-read on path1's. Either way
      the result lies on path1's file system, and a relative path is
      appended. */
  lemma SameFileSystemOrProvider(path1: Path, path2: Path, roots1: seq<string>)
    requires path1.fs == path2.fs || path1.provider == path2.provider
    ensures Resolve(path1, path2, roots1).Resolved?
    ensures var p := Resolve(path1, path2, roots1).path;
      p.fs == path1.fs && p.provider == (if path2.absolute && path1.fs == path2.fs then path2.provider else path1.provider)
      && (!path2.absolute && path2.root.None? ==> p.names == path1.names + path2.names)
  {
  }

  /** As written, the roots are never looked at. */
  lemma RootsIgnored(path1: Path, path2: Path, roots1: seq<string>, roots2: seq<string>)
    ensures Resolve(path1, path2, roots1) == Resolve(path1, path2, roots2)
  {
  }

  /** Path.resolve applied to each name of a relative path in turn, starting
      from `p`. */
  function ResolveEach(p: Path, names: seq<string>): Path
    decreases |names|
  {
    if names == [] then p else ResolveEach(ChildOf(p, names[0]), names[1..])
  }

  /** Resolving the names one by one appends them. */
  lemma {:induction false} ResolveEachAppends(p: Path, names: seq<string>)
    ensures ResolveEach(p, names) == p.(names := p.names + names)
    decreases |names|
  {
    if names != [] {
      ResolveEachAppends(ChildOf(p, names[0]), names[1..]);
      assert p.names + [names[0]] + names[1..] == p.names + names;
    }
  }

  /** The behaviour the method's tests ask for across providers: a relative
      path with a root is refused; an empty path gives path1; any other
      relative path is resolved name by name on path1's file system; an
      absolute path is carried over to the root of path1's file system with
      the same name, if there is one. */
  function ResolveIntended(path1: Path, path2: Path, roots1: seq<string>): (r: ResolveOutcome)
    ensures r != NullPath
    ensures r.Resolved? ==> r.path.fs == path1.fs
    ensures r.Unresolvable? ==> path1.fs != path2.fs && path1.provider != path2.provider
  {
    if path1.fs == path2.fs then Resolved(NativeResolve(path1, path2))
    else if path1.provider == path2.provider then Resolved(NativeResolve(path1, Reparse(path2, path1)))
    else if !path2.absolute then
      if path2.root.Some? then Unresolvable(ROOT_NOT_ABSOLUTE)
      else
        ResolveEachAppends(path1, path2.names);
        Resolved(ResolveEach(path1, path2.names))
    else if path2.root.None? then Unresolvable(NO_ROOT)
    else if path2.root.value !in roots1 then Unresolvable(INCOMPATIBLE_ROOT)
    else Resolved(path1.(absolute := true, root := path2.root, names := path2.names))
  }

  /** The intended resolution never leaves path1's file system for a relative
      path, keeps its names in front, and gives path1 itself for an empty
      path. */
  lemma {:induction false} IntendedRelative(path1: Path, path2: Path, roots1: seq<string>)
    requires !path2.absolute && path2.root.None?
    ensures ResolveIntended(path1, path2, roots1) == Resolved(path1.(names := path1.names + path2.names))
    ensures path2.names == [] ==> ResolveIntended(path1, path2, roots1) == Resolved(path1)
  {
    ResolveEachAppends(path1, path2.names);
    assert path1.names + [] == path1.names;
  }

  /** Across providers, an absolute path whose root is one of path1's roots
      is resolved onto path1's file system with its own root and names; any
      other absolute path is refused with the message that says why. */
  lemma IntendedAbsolute(path1: Path, path2: Path, roots1: seq<string>)
    requires path1.fs != path2.fs && path1.provider != path2.provider && path2.absolute
    ensures var r := ResolveIntended(path1, path2, roots1);
      (r.Resolved? <==> path2.root.Some? && path2.root.value in roots1)
      && (r.Resolved? ==> r.path.fs == path1.fs && r.path.provider == path1.provider
                          && r.path.root == path2.root && r.path.names == path2.names)
      && (path2.root.None? ==> r == Unresolvable(NO_ROOT))
  {
  }

  /** Where the code is complete (one file system, one provider, or a refused
      absolute path) the intended behaviour is the written one. */
  lemma IntendedExtendsWritten(path1: Path, path2: Path, roots1: seq<string>)
    requires path1.fs == path2.fs || path1.provider == path2.provider
      || (path2.absolute && (path2.root.None? || path2.root.value !in roots1))
    ensures ResolveIntended(path1, path2, roots1) == Resolve(path1, path2, roots1)
  {
  }

  /** As written, an absolute path whose root IS one of path1's roots is still
      refused: "/bar" of a second provider against "/foo", whose file system
      has the root "/". The intended resolution gives "/bar" on path1's file
      system. */
  lemma MatchingRootRefused()
    ensures var path1 := Path(1, 1, true, Some("/"), ["foo"]);
      var path2 := Path(2, 2, true, Some("/"), ["bar"]);
      Resolve(path1, path2, ["/"]) == Unresolvable(INCOMPATIBLE_ROOT)
      && ResolveIntended(path1, path2, ["/"]) == Resolved(Path(1, 1, true, Some("/"), ["bar"]))
  {
  }

  /** As written, a relative path of a second provider resolves to null, even
      the empty path: "toto/le/heros" against "/foo/bar" should give
      "/foo/bar/toto/le/heros". */
  lemma RelativeAcrossProvidersIsNull()
    ensures var path1 := Path(1, 1, true, Some("/"), ["foo", "bar"]);
      var path2 := Path(2, 2, false, None, ["toto", "le", "heros"]);
      Resolve(path1, path2, ["/"]) == NullPath
      && Resolve(path1, path2.(names := []), ["/"]) == NullPath
      && ResolveIntended(path1, path2, ["/"]) == Resolved(Path(1, 1, true, Some("/"), ["foo", "bar", "toto", "le", "heros"]))
      && ResolveIntended(path1, path2.(names := []), ["/"]) == Resolved(path1)
  {
    var path1 := Path(1, 1, true, Some("/"), ["foo", "bar"]);
    var path2 := Path(2, 2, false, None, ["toto", "le", "heros"]);
    IntendedRelative(path1, path2, ["/"]);
    IntendedRelative(path1, path2.(names := []), ["/"]);
  }
}
