/** The two file-tree copy visitors (package copy).

    Both map an entry below `src` to the entry below `dst` at the same
    relative place: currentSrc := src.relativize(entry), currentDst :=
    MorePaths.resolve(dst, currentSrc). Directories are created with
    Files.createDirectories, so an existing target directory (the root of the
    copy, whose relative path is empty, in particular) is accepted; regular
    files are copied with Files.copy and no option, so an existing target
    fails; anything else that is not a directory is refused with an
    UnsupportedOperationException before anything changes.

    The fail-fast visitor throws the first IOException. The keep-going visitor
    appends every IOException to a shared RecursiveCopyException and goes on;
    the UnsupportedOperationException still escapes it.

    The mapping uses the resolution the MorePaths tests describe
    (MorePaths.ResolveIntended). As written, MorePaths.resolve returns null
    for a relative path of another provider, which is what relativize gives
    when the two trees live under different providers (see
    `WrittenResolveLosesCrossProviderCopy`).
 */
module Copy {
  import opened Wrappers
  import opened Nio
  import opened FileWalk
  import MorePaths

  /** src.relativize(p) for an entry `p` below `src`: the relative path of
      the names that follow `src`'s, on `src`'s file system. */
  function Relativize(src: Path, p: Path): (r: Path)
    requires Under(p, src)
    ensures !r.absolute && r.root.None? && r.fs == src.fs
    ensures src.names + r.names == p.names
  {
    Path(src.fs, src.provider, false, None, p.names[|src.names|..])
  }

  /** Where the copy puts the entry `p` of the source tree. */
  function Destination(src: Path, dst: Path, p: Path): (d: Path)
    requires Under(p, src)
    ensures Under(d, dst) && |d.names| - |dst.names| == |p.names| - |src.names|
  {
    dst.(names := dst.names + p.names[|src.names|..])
  }

  /** An exception a hook may let through. */
  function Raised(error: Option<IOError>): (f: Option<Failure>)
    ensures f.None? <==> error.None?
  {
    if error.Some? then Some(IO(error.value)) else None
  }

  /** resolve(dst, src.relativize(p)) is the destination of `p`, whatever the
      file systems and providers of the two trees: the source root maps to
      `dst` itself. (The roots of `dst`'s file system are not consulted for a
      relative path.) */
  lemma {:induction false} DestinationIsIntendedResolve(src: Path, dst: Path, p: Path)
    requires Under(p, src)
    ensures MorePaths.ResolveIntended(dst, Relativize(src, p), []) == MorePaths.Resolved(Destination(src, dst, p))
    ensures p == src ==> Destination(src, dst, p) == dst
  {
    var rel := Relativize(src, p);
    if dst.fs != rel.fs && dst.provider != rel.provider {
      MorePaths.IntendedRelative(dst, rel, []);
    }
    assert p == src ==> p.names[|src.names|..] == [];
    assert dst.names + [] == dst.names;
  }

  /** Two entries of the source tree never share a destination, and the
      destination of an entry below a directory lies below the destination of
      the directory. */
  lemma DestinationInjective(src: Path, dst: Path, p: Path, q: Path)
    requires Under(p, src) && Under(q, src)
    ensures Destination(src, dst, p) == Destination(src, dst, q) <==> p == q
    ensures Under(q, p) <==> Under(Destination(src, dst, q), Destination(src, dst, p))
  {
    var a, b := p.names[|src.names|..], q.names[|src.names|..];
    assert p.names == src.names + a && q.names == src.names + b;
    if Destination(src, dst, p) == Destination(src, dst, q) {
      assert dst.names + a == dst.names + b;
      assert a == (dst.names + a)[|dst.names|..];
      assert b == (dst.names + b)[|dst.names|..];
    }
    if Under(Destination(src, dst, q), Destination(src, dst, p)) {
      assert a <= b by {
        assert dst.names + a <= dst.names + b;
        forall k | 0 <= k < |a| ensures a[k] == b[k] {
          assert (dst.names + a)[|dst.names| + k] == (dst.names + b)[|dst.names| + k];
        }
      }
      assert src.names + a <= src.names + b;
    }
    if Under(q, p) {
      assert a <= b by {
        forall k | 0 <= k < |a| ensures a[k] == b[k] {
          assert (src.names + a)[|src.names| + k] == (src.names + b)[|src.names| + k];
        }
      }
      assert dst.names + a <= dst.names + b;
    }
  }

  /** As written, MorePaths.resolve cannot map a tree onto a destination of
      another provider: the relative path it is given resolves to null, and
      the first hook would pass that null to createDirectories. */
  lemma WrittenResolveLosesCrossProviderCopy(src: Path, dst: Path, p: Path, roots: seq<string>)
    requires Under(p, src) && dst.fs != src.fs && dst.provider != src.provider
    ensures MorePaths.Resolve(dst, Relativize(src, p), roots) == MorePaths.NullPath
    ensures MorePaths.ResolveIntended(dst, Relativize(src, p), roots).Resolved?
  {
    MorePaths.IntendedRelative(dst, Relativize(src, p), roots);
  }

  /** Within one file system or one provider, the written resolution already
      maps every entry to its destination: there the visitors' mapping is the
      code's own. */
  lemma WrittenResolveWithinProvider(src: Path, dst: Path, p: Path, roots: seq<string>)
    requires Under(p, src) && (dst.fs == src.fs || dst.provider == src.provider)
    ensures MorePaths.Resolve(dst, Relativize(src, p), roots) == MorePaths.Resolved(Destination(src, dst, p))
  {
    DestinationIsIntendedResolve(src, dst, p);
    MorePaths.IntendedExtendsWritten(dst, Relativize(src, p), []);
  }

  /** What a hook of either copy visitor does, before the policy decides what
      becomes of an IOException. */
  function CopyAction(src: Path, dst: Path, fault: Path -> Option<IOError>, e: Event, st: State): Outcome
    requires Under(EventPath(e), src)
  {
    match e
    case PreVisit(dir) =>
      var to := Destination(src, dst, dir);
      var s := CreateDirectoriesSpec(st.entries, fault, to);
      Outcome(Raised(s.error), st.(entries := s.entries, currentSrc := Some(Relativize(src, dir)), currentDst := Some(to)))
    case VisitFile(file, regular) =>
      if !regular then Outcome(Some(UnsupportedOperation), st)
      else
        var to := Destination(src, dst, file);
        var s := CopySpec(st.entries, fault, file, to);
        Outcome(Raised(s.error), st.(entries := s.entries, currentSrc := Some(Relativize(src, file)), currentDst := Some(to)))
    case VisitFileFailed(_, exc) => Outcome(Some(IO(exc)), st)
    case PostVisit(_, exc) => Outcome(Raised(exc), st)
  }

  /** FailFastCopyVisitor: every exception escapes. */
  function FailFastHook(src: Path, dst: Path, fault: Path -> Option<IOError>, e: Event, st: State): Outcome
    requires Under(EventPath(e), src)
  {
    CopyAction(src, dst, fault, e, st)
  }

  /** KeepGoingCopyVisitor: an IOException is collected. */
  function KeepGoingHook(src: Path, dst: Path, fault: Path -> Option<IOError>, e: Event, st: State): Outcome
    requires Under(EventPath(e), src)
  {
    Collect(CopyAction(src, dst, fault, e, st))
  }

  /** Every hook of either visitor leaves currentSrc / currentDst at the
      mapping of the entry it was called for, or as they were; an entry
      that is not a regular file changes nothing and is refused by both
      visitors alike. */
  lemma HookBookkeeping(src: Path, dst: Path, fault: Path -> Option<IOError>, e: Event, st: State)
    requires Under(EventPath(e), src)
    ensures var o := FailFastHook(src, dst, fault, e, st);
      if e.PreVisit? || (e.VisitFile? && e.regular) then
        o.state.currentSrc == Some(Relativize(src, EventPath(e)))
        && o.state.currentDst == Some(Destination(src, dst, EventPath(e)))
      else o.state.currentSrc == st.currentSrc && o.state.currentDst == st.currentDst
    ensures e.VisitFile? && !e.regular ==>
      FailFastHook(src, dst, fault, e, st) == KeepGoingHook(src, dst, fault, e, st) == Outcome(Some(UnsupportedOperation), st)
  {
  }

  /** The hooks' effect on the entries: a directory hook creates the mapped
      directory (an existing one is accepted), a file hook copies the file to
      its mapped place, which must not exist yet; the other hooks touch
      nothing. When the operation fails, the fail-fast visitor throws its
      exception and the keep-going visitor records it and carries on. */
  lemma HookEffects(src: Path, dst: Path, fault: Path -> Option<IOError>, e: Event, st: State)
    requires Under(EventPath(e), src)
    ensures var ff := FailFastHook(src, dst, fault, e, st);
      var kg := KeepGoingHook(src, dst, fault, e, st);
      (e.PreVisit? ==>
        var s := CreateDirectoriesSpec(st.entries, fault, Destination(src, dst, e.dir));
        ff.state.entries == kg.state.entries == s.entries
        && (ff.thrown.None? <==> s.error.None?)
        && (s.error.None? ==> Destination(src, dst, e.dir) in ff.state.entries && ff.state.entries[Destination(src, dst, e.dir)].Directory?))
      && (e.VisitFile? && e.regular ==>
        var s := CopySpec(st.entries, fault, e.file, Destination(src, dst, e.file));
        ff.state.entries == kg.state.entries == s.entries
        && (ff.thrown.None? <==> s.error.None?)
        && (s.error.None? ==> Destination(src, dst, e.file) !in st.entries
                              && ff.state.entries == st.entries[Destination(src, dst, e.file) := st.entries[e.file]]))
      && (e.VisitFileFailed? || e.PostVisit? ==> ff.state == st && kg.state.entries == st.entries)
      && (ff.thrown.Some? && ff.thrown.value.IO? ==>
            kg == Outcome(None, ff.state.(suppressed := st.suppressed + [ff.thrown.value.error])))
      && (ff.thrown.None? || ff.thrown == Some(UnsupportedOperation) ==> kg == ff)
  {
  }

  class FailFastCopyVisitor {
    const src: Path
    const dst: Path
    var currentSrc: Option<Path>
    var currentDst: Option<Path>

    constructor(src: Path, dst: Path)
      ensures this.src == src && this.dst == dst
      ensures currentSrc.None? && currentDst.None?
    {
      this.src := src;
      this.dst := dst;
      currentSrc := None;
      currentDst := None;
    }

    /** The visitor's fields and the entries, as one state. */
    ghost function Observe(storage: Storage): State
      reads this, storage
    {
      State(storage.entries, currentSrc, currentDst, [])
    }

    /** Points currentSrc / currentDst at `p` and its destination. */
    method Map(p: Path) returns (to: Path)
      requires Under(p, src)
      modifies this
      ensures to == Destination(src, dst, p)
      ensures currentSrc == Some(Relativize(src, p)) && currentDst == Some(to)
    {
      var rel := Relativize(src, p);
      currentSrc := Some(rel);
      var resolved := MorePaths.ResolveIntended(dst, rel, []);
      DestinationIsIntendedResolve(src, dst, p);
      to := resolved.path;
      currentDst := Some(to);
    }

    method PreVisitDirectory(dir: Path, storage: Storage) returns (thrown: Option<Failure>)
      requires Under(dir, src)
      modifies this, storage
      ensures Outcome(thrown, Observe(storage)) == FailFastHook(src, dst, storage.fault, PreVisit(dir), old(Observe(storage)))
      ensures storage.permissions == old(storage.permissions)
    {
      var to := Map(dir);
      var err := storage.CreateDirectories(to);
      thrown := Raised(err);
    }

    method VisitFile(file: Path, regular: bool, storage: Storage) returns (thrown: Option<Failure>)
      requires Under(file, src)
      modifies this, storage
      ensures Outcome(thrown, Observe(storage)) == FailFastHook(src, dst, storage.fault, FileWalk.VisitFile(file, regular), old(Observe(storage)))
      ensures storage.permissions == old(storage.permissions)
    {
      if !regular {
        return Some(UnsupportedOperation);
      }
      var to := Map(file);
      var err := storage.Copy(file, to);
      thrown := Raised(err);
    }

    method VisitFileFailed(file: Path, exc: IOError) returns (thrown: Option<Failure>)
      ensures thrown == Some(IO(exc))
    {
      thrown := Some(IO(exc));
    }

    method PostVisitDirectory(dir: Path, exc: Option<IOError>) returns (thrown: Option<Failure>)
      ensures thrown == Raised(exc)
    {
      if exc.Some? {
        return Some(IO(exc.value));
      }
      thrown := None;
    }
  }

  class KeepGoingCopyVisitor {
    const exception: RecursiveException
    const src: Path
    const dst: Path
    var currentSrc: Option<Path>
    var currentDst: Option<Path>

    constructor(src: Path, dst: Path, exception: RecursiveException)
      ensures this.src == src && this.dst == dst && this.exception == exception
      ensures currentSrc.None? && currentDst.None?
    {
      this.exception := exception;
      this.src := src;
      this.dst := dst;
      currentSrc := None;
      currentDst := None;
    }

    /** The visitor's fields, the collected exceptions and the entries, as
        one state. */
    ghost function Observe(storage: Storage): State
      reads this, exception, storage
    {
      State(storage.entries, currentSrc, currentDst, exception.suppressed)
    }

    method Map(p: Path) returns (to: Path)
      requires Under(p, src)
      modifies this
      ensures to == Destination(src, dst, p)
      ensures currentSrc == Some(Relativize(src, p)) && currentDst == Some(to)
    {
      var rel := Relativize(src, p);
      currentSrc := Some(rel);
      var resolved := MorePaths.ResolveIntended(dst, rel, []);
      DestinationIsIntendedResolve(src, dst, p);
      to := resolved.path;
      currentDst := Some(to);
    }

    method PreVisitDirectory(dir: Path, storage: Storage) returns (thrown: Option<Failure>)
      requires Under(dir, src)
      modifies this, exception, storage
      ensures Outcome(thrown, Observe(storage)) == KeepGoingHook(src, dst, storage.fault, PreVisit(dir), old(Observe(storage)))
      ensures storage.permissions == old(storage.permissions)
    {
      var to := Map(dir);
      var err := storage.CreateDirectories(to);
      if err.Some? {
        exception.AddSuppressed(err.value);
      }
      thrown := None;
    }

    method VisitFile(file: Path, regular: bool, storage: Storage) returns (thrown: Option<Failure>)
      requires Under(file, src)
      modifies this, exception, storage
      ensures Outcome(thrown, Observe(storage)) == KeepGoingHook(src, dst, storage.fault, FileWalk.VisitFile(file, regular), old(Observe(storage)))
      ensures storage.permissions == old(storage.permissions)
    {
      if !regular {
        return Some(UnsupportedOperation);
      }
      var to := Map(file);
      var err := storage.Copy(file, to);
      if err.Some? {
        exception.AddSuppressed(err.value);
      }
      thrown := None;
    }

    method VisitFileFailed(file: Path, exc: IOError) returns (thrown: Option<Failure>)
      modifies exception
      ensures thrown.None? && exception.suppressed == old(exception.suppressed) + [exc]
    {
      exception.AddSuppressed(exc);
      thrown := None;
    }

    method PostVisitDirectory(dir: Path, exc: Option<IOError>) returns (thrown: Option<Failure>)
      modifies exception
      ensures thrown.None?
      ensures exception.suppressed == old(exception.suppressed) + (if exc.Some? then [exc.value] else [])
    {
      if exc.Some? {
        exception.AddSuppressed(exc.value);
      }
      thrown := None;
    }
  }
}
