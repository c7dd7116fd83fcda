/** The two file-tree deletion visitors (package deletion).

    Both delete every entry through the provider of the victim's file system,
    which they capture at construction; all file systems share one storage
    here, so that provider is the storage and is not kept as a field. Entries
    go in post-order: a file (a symbolic link itself, never its target) when
    it is visited, a directory after its children. Neither does anything before a directory's children.

    The fail-fast visitor lets the first IOException escape, and a directory
    whose listing broke off is still deleted: the walker's exception is
    dropped. The keep-going visitor appends every IOException to a shared
    RecursiveDeletionException and goes on; a directory whose listing broke
    off is not deleted, the walker's exception being collected instead.
 */
module Deletion {
  import opened Wrappers
  import opened Nio
  import opened FileWalk

  /** provider.delete, as a hook sees it. */
  function Delete(fault: Path -> Option<IOError>, p: Path, st: State): Outcome {
    var s := DeleteSpec(st.entries, fault, p);
    Outcome(if s.error.Some? then Some(IO(s.error.value)) else None, st.(entries := s.entries))
  }

  /** FailFastDeletionVisitor. */
  function FailFastHook(fault: Path -> Option<IOError>, e: Event, st: State): Outcome {
    match e
    case PreVisit(_) => Outcome(None, st)
    case VisitFile(file, _) => Delete(fault, file, st)
    case VisitFileFailed(_, exc) => Outcome(Some(IO(exc)), st)
    case PostVisit(dir, _) => Delete(fault, dir, st)
  }

  /** KeepGoingDeletionVisitor. */
  function KeepGoingHook(fault: Path -> Option<IOError>, e: Event, st: State): Outcome {
    match e
    case PreVisit(_) => Outcome(None, st)
    case VisitFile(file, _) => Collect(Delete(fault, file, st))
    case VisitFileFailed(_, exc) => Outcome(None, st.(suppressed := st.suppressed + [exc]))
    case PostVisit(dir, exc) =>
      if exc.Some? then Outcome(None, st.(suppressed := st.suppressed + [exc.value]))
      else Collect(Delete(fault, dir, st))
  }

  /** The keep-going visitor never throws and never forgets an error: every
      hook appends at most one exception and keeps the earlier ones, and the
      entries change only by the deletion the hook attempts. */
  lemma KeepGoingNeverThrows(fault: Path -> Option<IOError>, e: Event, st: State)
    ensures var o := KeepGoingHook(fault, e, st);
      o.thrown.None?
      && st.suppressed <= o.state.suppressed && |o.state.suppressed| <= |st.suppressed| + 1
      && o.state.currentSrc == st.currentSrc && o.state.currentDst == st.currentDst
      && (o.state.entries == st.entries || o.state.entries == st.entries - {EventPath(e)})
  {
  }

  /** Both visitors agree on what they delete and on the error, except at a
      directory whose listing broke off: the fail-fast visitor deletes it
      anyway and drops the walker's exception, the keep-going visitor records
      the exception and leaves the directory. */
  lemma PoliciesPerHook(fault: Path -> Option<IOError>, e: Event, st: State)
    ensures var ff := FailFastHook(fault, e, st);
      var kg := KeepGoingHook(fault, e, st);
      (e.PostVisit? && e.listingError.Some? ==>
         ff == FailFastHook(fault, PostVisit(e.dir, None), st)
         && kg == Outcome(None, st.(suppressed := st.suppressed + [e.listingError.value])))
      && (!(e.PostVisit? && e.listingError.Some?) ==>
         kg == if ff.thrown.Some? then Outcome(None, ff.state.(suppressed := st.suppressed + [ff.thrown.value.error])) else ff)
  {
  }

  /** The deletion of a file: only that entry goes; a failure leaves the
      entries alone and is thrown, fail-fast, or collected, keep-going. */
  lemma VisitFileDeletesOnlyIt(fault: Path -> Option<IOError>, file: Path, regular: bool, st: State)
    ensures var ff := FailFastHook(fault, VisitFile(file, regular), st);
      (ff.thrown.None? <==>
         fault(file).None? && file in st.entries && !(st.entries[file].Directory? && HasChildren(st.entries, file)))
      && (ff.thrown.None? ==> ff.state == st.(entries := st.entries - {file}))
      && (ff.thrown.Some? ==> ff.state == st)
  {
  }

  class FailFastDeletionVisitor {
    constructor() {
    }

    ghost function Observe(storage: Storage): State
      reads storage
    {
      State(storage.entries, None, None, [])
    }

    method PreVisitDirectory(dir: Path) returns (thrown: Option<Failure>)
      ensures thrown.None?
    {
      thrown := None;
    }

    method VisitFile(file: Path, storage: Storage) returns (thrown: Option<Failure>)
      modifies storage
      ensures Outcome(thrown, Observe(storage)) == Delete(storage.fault, file, old(Observe(storage)))
      ensures storage.permissions == old(storage.permissions)
    {
      var err := storage.Delete(file);
      thrown := if err.Some? then Some(IO(err.value)) else None;
    }

    method VisitFileFailed(file: Path, exc: IOError) returns (thrown: Option<Failure>)
      ensures thrown == Some(IO(exc))
    {
      thrown := Some(IO(exc));
    }

    /** The walker's exception is not looked at. */
    method PostVisitDirectory(dir: Path, exc: Option<IOError>, storage: Storage) returns (thrown: Option<Failure>)
      modifies storage
      ensures Outcome(thrown, Observe(storage)) == Delete(storage.fault, dir, old(Observe(storage)))
      ensures storage.permissions == old(storage.permissions)
    {
      var err := storage.Delete(dir);
      thrown := if err.Some? then Some(IO(err.value)) else None;
    }
  }

  class KeepGoingDeletionVisitor {
    const exception: RecursiveException

    constructor(exception: RecursiveException)
      ensures this.exception == exception
    {
      this.exception := exception;
    }

    ghost function Observe(storage: Storage): State
      reads exception, storage
    {
      State(storage.entries, None, None, exception.suppressed)
    }

    method PreVisitDirectory(dir: Path) returns (thrown: Option<Failure>)
      ensures thrown.None?
    {
      thrown := None;
    }

    method VisitFile(file: Path, storage: Storage) returns (thrown: Option<Failure>)
      modifies exception, storage
      ensures Outcome(thrown, Observe(storage)) == Collect(Delete(storage.fault, file, old(Observe(storage))))
      ensures storage.permissions == old(storage.permissions)
    {
      var err := storage.Delete(file);
      if err.Some? {
        exception.AddSuppressed(err.value);
      }
      thrown := None;
    }

    method VisitFileFailed(file: Path, exc: IOError) returns (thrown: Option<Failure>)
      modifies exception
      ensures thrown.None? && exception.suppressed == old(exception.suppressed) + [exc]
    {
      exception.AddSuppressed(exc);
      thrown := None;
    }

    method PostVisitDirectory(dir: Path, exc: Option<IOError>, storage: Storage) returns (thrown: Option<Failure>)
      modifies exception, storage
      ensures Outcome(thrown, Observe(storage)) == KeepGoingHook(storage.fault, PostVisit(dir, exc), old(Observe(storage)))
      ensures storage.permissions == old(storage.permissions)
    {
      if exc.Some? {
        exception.AddSuppressed(exc.value);
        return None;
      }
      var err := storage.Delete(dir);
      if err.Some? {
        exception.AddSuppressed(err.value);
      }
      thrown := None;
    }
  }
}
