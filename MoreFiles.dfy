/** MoreFiles: the recursive copy and deletion, the option and existence
    checks of openZip, and the creation of missing directories with their
    permissions.

    copyRecursive checks its options, resolves the source (which must
    exist), refuses an existing destination unless REPLACE_EXISTING was given,
    removes the destination non-recursively, then walks the source with the
    fail-fast or keep-going copy visitor; deleteRecursive walks the victim
    with a deletion visitor. In KEEP_GOING mode the collected exceptions are
    thrown as one RecursiveCopyException / RecursiveDeletionException when
    there is at least one; in FAIL_FAST mode the walk's exception goes
    through.

    The walker's view of the tree (a `Node`) is a parameter, like everything
    else the platform decides (sibling order, which entries cannot be read).
 */
module MoreFiles {
  import opened Wrappers
  import opened Nio
  import opened FileWalk
  import opened Walker
  import PosixModes
  import Copy
  import MorePaths
  import Deletion
  import Mirror
  import Policies
  import Removal

  /** RecursionMode. */
  datatype RecursionMode = FAIL_FAST | KEEP_GOING

  /** What escapes one of the operations: a NullPointerException, an
      UnsupportedOperationException (with its message, if any), an
      IOException, the RecursiveCopyException / RecursiveDeletionException
      that carries the suppressed exceptions, an InvalidIntModeException, or
      a NoSuchFileException built from a message instead of a path. */
  datatype Raised =
    | NullPointer
    | Unsupported(message: Option<string>)
    | IOException(error: IOError)
    | Aggregate(suppressed: seq<IOError>)
    | InvalidIntMode
    | NoSuchFileMessage(file: string)

  /** How the operation ends, and the entries afterwards. */
  datatype Ending = Ending(thrown: Option<Raised>, entries: Entries)

  /** A hook's exception, as the caller of walkFileTree sees it. */
  function Escaped(f: Option<Failure>): (r: Option<Raised>)
    ensures r.None? <==> f.None?
    ensures f == Some(UnsupportedOperation) ==> r == Some(Unsupported(None))
    ensures f.Some? && f.value.IO? ==> r == Some(IOException(f.value.error))
  {
    match f
    case None => None
    case Some(IO(e)) => Some(IOException(e))
    case Some(UnsupportedOperation) => Some(Unsupported(None))
  }

  /** The KEEP_GOING ending: the walk's own exception if it threw one, else
      the aggregate exactly when something was collected. */
  function KeepGoingEnding(o: Outcome): (r: Ending)
    ensures r.entries == o.state.entries
    ensures r.thrown.None? <==> o.thrown.None? && o.state.suppressed == []
    ensures o.thrown.None? && o.state.suppressed != [] ==> r.thrown == Some(Aggregate(o.state.suppressed))
  {
    if o.thrown.Some? then Ending(Escaped(o.thrown), o.state.entries)
    else if |o.state.suppressed| != 0 then Ending(Some(Aggregate(o.state.suppressed)), o.state.entries)
    else Ending(None, o.state.entries)
  }

  // ---------------------------------------------------------------------
  // copyRecursive

  /** copyRecursive(source, destination, mode, options...), with the walker's
      view `tree` of the source. toRealPath and toAbsolutePath are taken to
      return the path they are given. */
  function CopyRecursiveSpec(source: Path, destination: Path, mode: RecursionMode, options: seq<Option<CopyOption>>,
                             tree: Node, fault: Path -> Option<IOError>, entries: Entries): Ending
  {
    if None in options then Ending(Some(NullPointer), entries)
    else if |options| > 1 then Ending(Some(Unsupported(None)), entries)
    else if source !in entries then Ending(Some(IOException(IOError(NoSuchFile, source))), entries)
    else if destination in entries && Some(REPLACE_EXISTING) !in options then
      Ending(Some(IOException(IOError(FileAlreadyExists, destination))), entries)
    else
      var s := DeleteIfExistsSpec(entries, fault, destination);
      if s.error.Some? then Ending(Some(IOException(s.error.value)), s.entries)
      else
        var st := State(s.entries, None, None, []);
        match mode
        case FAIL_FAST =>
          var o := Run(CopyFailFast(source, destination), fault, Walk(source, tree), st);
          Ending(Escaped(o.thrown), o.state.entries)
        case KEEP_GOING =>
          KeepGoingEnding(Run(CopyKeepGoing(source, destination), fault, Walk(source, tree), st))
  }

  method CopyRecursive(source: Path, destination: Path, mode: RecursionMode, options: seq<Option<CopyOption>>,
                       tree: Node, storage: Storage) returns (thrown: Option<Raised>)
    modifies storage
    ensures Ending(thrown, storage.entries) == CopyRecursiveSpec(source, destination, mode, options, tree, storage.fault, old(storage.entries))
    ensures storage.permissions == old(storage.permissions)
  {
    var replace := false;
    var i := 0;
    while i < |options|
      invariant 0 <= i <= |options|
      invariant None !in options[..i]
      invariant replace <==> Some(REPLACE_EXISTING) in options[..i]
    {
      if options[i].None? {
        return Some(NullPointer);
      }
      if options[i].value == REPLACE_EXISTING {
        replace := true;
      }
      assert options[..i + 1] == options[..i] + [options[i]];
      i := i + 1;
    }
    assert options[..i] == options;

    if |options| > 1 {
      return Some(Unsupported(None));
    }

    var sourceExists := storage.Exists(source);
    if !sourceExists {
      return Some(IOException(IOError(NoSuchFile, source)));
    }

    var destinationExists := storage.Exists(destination);
    if destinationExists && !replace {
      return Some(IOException(IOError(FileAlreadyExists, destination)));
    }

    var err := storage.DeleteIfExists(destination);
    if err.Some? {
      return Some(IOException(err.value));
    }

    if mode == FAIL_FAST {
      var visitor := new Copy.FailFastCopyVisitor(source, destination);
      var t := WalkFileTree(source, tree, FailFastCopy(visitor), storage);
      return Escaped(t);
    }

    var exception := new RecursiveException();
    var visitor := new Copy.KeepGoingCopyVisitor(source, destination, exception);
    var t := WalkFileTree(source, tree, KeepGoingCopy(visitor), storage);
    if t.Some? {
      return Escaped(t);
    }
    if |exception.suppressed| != 0 {
      return Some(Aggregate(exception.suppressed));
    }
    thrown := None;
  }

  /** The options are checked first, and a refused call changes nothing: a
      null option throws a NullPointerException (and only a null option
      does), more than one option an UnsupportedOperationException. */
  lemma CopyOptionsChecked(source: Path, destination: Path, mode: RecursionMode, options: seq<Option<CopyOption>>,
                           tree: Node, fault: Path -> Option<IOError>, entries: Entries)
    ensures var r := CopyRecursiveSpec(source, destination, mode, options, tree, fault, entries);
      (r.thrown == Some(NullPointer) <==> None in options)
      && (None in options ==> r.entries == entries)
      && (None !in options && |options| > 1 ==> r == Ending(Some(Unsupported(None)), entries))
  {
  }

  /** A missing source is reported before the destination is looked at. */
  lemma MissingSourceChangesNothing(source: Path, destination: Path, mode: RecursionMode, options: seq<Option<CopyOption>>,
                                    tree: Node, fault: Path -> Option<IOError>, entries: Entries)
    requires None !in options && |options| <= 1 && source !in entries
    ensures CopyRecursiveSpec(source, destination, mode, options, tree, fault, entries)
      == Ending(Some(IOException(IOError(NoSuchFile, source))), entries)
  {
  }

  /** Without REPLACE_EXISTING an existing destination is refused and nothing
      is deleted or copied; with it, a destination directory that still has
      entries is refused by the non-recursive delete, and nothing changes
      either. */
  lemma ExistingDestinationKept(source: Path, destination: Path, mode: RecursionMode, options: seq<Option<CopyOption>>,
                                tree: Node, fault: Path -> Option<IOError>, entries: Entries)
    requires None !in options && |options| <= 1 && source in entries && destination in entries
    ensures var r := CopyRecursiveSpec(source, destination, mode, options, tree, fault, entries);
      (Some(REPLACE_EXISTING) !in options ==> r == Ending(Some(IOException(IOError(FileAlreadyExists, destination))), entries))
      && (options == [Some(REPLACE_EXISTING)] && fault(destination).None?
          && entries[destination].Directory? && HasChildren(entries, destination) ==>
            r == Ending(Some(IOException(IOError(DirectoryNotEmpty, destination))), entries))
  {
  }

  /** With REPLACE_EXISTING, a destination file or empty directory is removed
      before the walk starts. */
  lemma ReplacedDestinationRemoved(source: Path, destination: Path, fault: Path -> Option<IOError>, entries: Entries)
    requires source in entries && destination in entries && fault(destination).None?
    requires !(entries[destination].Directory? && HasChildren(entries, destination))
    ensures DeleteIfExistsSpec(entries, fault, destination) == Step(None, entries - {destination})
  {
  }

  /** What the copy needs of the destination: nothing lies below it, it may
      exist only when it is to be replaced, its parent is a directory, and
      no operation on the destination side fails. */
  predicate DestinationFree(source: Path, destination: Path, options: seq<Option<CopyOption>>, tree: Node,
                            fault: Path -> Option<IOError>, entries: Entries)
  {
    destination.root.Some? && destination !in Paths(source, tree)
    && (forall x :: x in entries && Under(x, destination) ==> x == destination)
    && (destination in entries ==> Some(REPLACE_EXISTING) in options)
    && Mirror.Lands(entries, destination) && fault(destination).None?
    && (forall q :: q in Paths(source, tree) ==> fault(Copy.Destination(source, destination, q)).None?)
  }

  /** After the destination is removed, the source tree is ready to be
      copied there. */
  lemma ReadyAfterRemoval(source: Path, destination: Path, options: seq<Option<CopyOption>>, tree: Node,
                          fault: Path -> Option<IOError>, entries: Entries)
    requires Describes(entries, source, tree) && DestinationFree(source, destination, options, tree, fault, entries)
    ensures DeleteIfExistsSpec(entries, fault, destination) == Step(None, entries - {destination})
    ensures Describes(entries - {destination}, source, tree)
    ensures Mirror.Ready(source, destination, entries - {destination}, source, tree)
  {
    var e1 := entries - {destination};
    if destination !in entries {
      assert e1 == entries;
    } else {
      assert !HasChildren(entries, destination);
    }
    DescribesFrame(entries, e1, source, tree);
    assert Copy.Destination(source, destination, source) == destination;
    assert Parent(destination).value != destination;
  }

  /** The KEEP_GOING copy of a tree of directories and regular files whose
      destination side never fails: every entry the walker reaches is copied
      to its place below the destination, and the walker's own exceptions,
      in walk order, are thrown as one RecursiveCopyException, when there is
      at least one. */
  lemma KeepGoingCopyMirrors(source: Path, destination: Path, options: seq<Option<CopyOption>>, tree: Node,
                             fault: Path -> Option<IOError>, entries: Entries)
    requires None !in options && |options| <= 1
    requires RegularOnly(tree) && Describes(entries, source, tree)
    requires DestinationFree(source, destination, options, tree, fault, entries)
    ensures var r := CopyRecursiveSpec(source, destination, KEEP_GOING, options, tree, fault, entries);
      r.thrown == (if WalkErrors(tree) == [] then None else Some(Aggregate(WalkErrors(tree))))
      && Mirror.CopiedInto(source, destination, entries - {destination}, r.entries, Reached(source, tree))
  {
    DescribedExist(entries, source, tree);
    ReadyAfterRemoval(source, destination, options, tree, fault, entries);
    var st := State(entries - {destination}, None, None, []);
    Mirror.CopyTree(source, destination, fault, source, tree, st);
    assert st.suppressed + WalkErrors(tree) == WalkErrors(tree);
  }

  /** The FAIL_FAST copy of such a tree throws the walker's first exception,
      if there is one; otherwise it copies every entry. */
  lemma FailFastCopyMirrors(source: Path, destination: Path, options: seq<Option<CopyOption>>, tree: Node,
                            fault: Path -> Option<IOError>, entries: Entries)
    requires None !in options && |options| <= 1
    requires RegularOnly(tree) && Describes(entries, source, tree)
    requires DestinationFree(source, destination, options, tree, fault, entries)
    ensures var r := CopyRecursiveSpec(source, destination, FAIL_FAST, options, tree, fault, entries);
      r.thrown == (if WalkErrors(tree) == [] then None else Some(IOException(WalkErrors(tree)[0])))
      && (WalkErrors(tree) == [] ==> Mirror.CopiedInto(source, destination, entries - {destination}, r.entries, Paths(source, tree)))
  {
    DescribedExist(entries, source, tree);
    ReadyAfterRemoval(source, destination, options, tree, fault, entries);
    var st := State(entries - {destination}, None, None, []);
    var w := Walk(source, tree);
    Mirror.CopyTree(source, destination, fault, source, tree, st);
    Policies.CopyPoliciesAgree(source, destination, fault, w, st);
    if WalkErrors(tree) == [] {
      ReachedAllWithoutErrors(source, tree);
    }
  }

  /** A walk that reports nothing has reached every entry. */
  /** copyRecursive as written, with `roots` the root directories of the
      destination's file system. The visitors map entries with
      MorePaths.resolve, which gives null for every entry once source and
      destination belong to different providers; the first hook that maps an
      entry (preVisitDirectory of a directory source, visitFile of a
      regular-file source) hands that null to createDirectories or
      Files.copy, and neither visitor catches the NullPointerException. Any
      other walk is the one CopyRecursiveSpec describes. */
  function WrittenCopyRecursiveSpec(source: Path, destination: Path, mode: RecursionMode,
                                    options: seq<Option<CopyOption>>, tree: Node, roots: seq<string>,
                                    fault: Path -> Option<IOError>, entries: Entries): Ending
  {
    var first := Walk(source, tree)[0];
    var mapsFirst := first.PreVisit? || (first.VisitFile? && first.regular);
    if None in options || |options| > 1 || source !in entries
       || (destination in entries && Some(REPLACE_EXISTING) !in options)
       || DeleteIfExistsSpec(entries, fault, destination).error.Some?
       || !mapsFirst
       || !MorePaths.Resolve(destination, Copy.Relativize(source, source), roots).NullPath?
    then CopyRecursiveSpec(source, destination, mode, options, tree, fault, entries)
    else Ending(Some(NullPointer), DeleteIfExistsSpec(entries, fault, destination).entries)
  }

  /** Within one file system or one provider the written copy is the one
      CopyRecursiveSpec describes. */
  lemma WrittenWithinProvider(source: Path, destination: Path, mode: RecursionMode,
                              options: seq<Option<CopyOption>>, tree: Node, roots: seq<string>,
                              fault: Path -> Option<IOError>, entries: Entries)
    requires destination.fs == source.fs || destination.provider == source.provider
    ensures WrittenCopyRecursiveSpec(source, destination, mode, options, tree, roots, fault, entries)
         == CopyRecursiveSpec(source, destination, mode, options, tree, fault, entries)
  {
    Copy.WrittenResolveWithinProvider(source, destination, source, roots);
  }

  /** As written, copying a directory or a regular file to another provider
      throws a NullPointerException in either mode, once the destination has
      been removed and before anything is copied, where the intended copy
      never throws one. */
  lemma WrittenCrossProviderCopyThrows(source: Path, destination: Path, mode: RecursionMode,
                                       options: seq<Option<CopyOption>>, tree: Node, roots: seq<string>,
                                       fault: Path -> Option<IOError>, entries: Entries)
    requires None !in options && |options| <= 1 && source in entries
    requires destination in entries ==> Some(REPLACE_EXISTING) in options
    requires DeleteIfExistsSpec(entries, fault, destination).error.None?
    requires destination.fs != source.fs && destination.provider != source.provider
    requires tree.Dir? || tree == Leaf(RegularLeaf)
    ensures WrittenCopyRecursiveSpec(source, destination, mode, options, tree, roots, fault, entries)
         == Ending(Some(NullPointer), DeleteIfExistsSpec(entries, fault, destination).entries)
    ensures CopyRecursiveSpec(source, destination, mode, options, tree, fault, entries).thrown != Some(NullPointer)
  {
    Copy.WrittenResolveLosesCrossProviderCopy(source, destination, source, roots);
  }

  lemma {:induction false} ReachedAllWithoutErrors(p: Path, node: Node)
    requires WalkErrors(node) == []
    ensures Reached(p, node) == Paths(p, node)
    decreases node
  {
    if node.Dir? {
      ChildrenReachedAllWithoutErrors(p, node.children);
    }
  }

  lemma {:induction false} ChildrenReachedAllWithoutErrors(p: Path, cs: seq<Child>)
    requires ChildrenWalkErrors(cs) == []
    ensures ChildrenReached(p, cs) == ChildrenPaths(p, cs)
    decreases cs
  {
    if cs != [] {
      assert WalkErrors(cs[0].node) == [] && ChildrenWalkErrors(cs[1..]) == [] by {
        assert |ChildrenWalkErrors(cs)| == |WalkErrors(cs[0].node)| + |ChildrenWalkErrors(cs[1..])|;
      }
      ReachedAllWithoutErrors(ChildOf(p, cs[0].name), cs[0].node);
      ChildrenReachedAllWithoutErrors(p, cs[1..]);
    }
  }

  // ---------------------------------------------------------------------
  // deleteRecursive

  /** deleteRecursive(victim, mode), with the walker's view `tree` of the
      victim. */
  function DeleteRecursiveSpec(victim: Path, mode: RecursionMode, tree: Node, fault: Path -> Option<IOError>, entries: Entries): Ending {
    var st := State(entries, None, None, []);
    match mode
    case KEEP_GOING => KeepGoingEnding(Run(DeleteKeepGoing, fault, Walk(victim, tree), st))
    case FAIL_FAST =>
      var o := Run(DeleteFailFast, fault, Walk(victim, tree), st);
      Ending(Escaped(o.thrown), o.state.entries)
  }

  method DeleteRecursive(victim: Path, mode: RecursionMode, tree: Node, storage: Storage) returns (thrown: Option<Raised>)
    modifies storage
    ensures Ending(thrown, storage.entries) == DeleteRecursiveSpec(victim, mode, tree, storage.fault, old(storage.entries))
    ensures storage.permissions == old(storage.permissions)
  {
    match mode
    case KEEP_GOING =>
      var exception := new RecursiveException();
      var visitor := new Deletion.KeepGoingDeletionVisitor(exception);
      var t := WalkFileTree(victim, tree, KeepGoingDeletion(visitor), storage);
      if t.Some? {
        return Escaped(t);
      }
      if |exception.suppressed| != 0 {
        return Some(Aggregate(exception.suppressed));
      }
      thrown := None;
    case FAIL_FAST =>
      var visitor := new Deletion.FailFastDeletionVisitor();
      var t := WalkFileTree(victim, tree, FailFastDeletion(visitor), storage);
      thrown := Escaped(t);
  }

  /** A clean tree, with nothing else below the victim and no deletion that
      fails, is removed entirely in either mode, and nothing is thrown. */
  lemma DeleteRecursiveRemovesTree(victim: Path, mode: RecursionMode, tree: Node, fault: Path -> Option<IOError>, entries: Entries)
    requires Clean(tree) && Describes(entries, victim, tree) && Closed(entries, victim, tree)
    requires forall q :: q in Paths(victim, tree) ==> fault(q).None?
    ensures DeleteRecursiveSpec(victim, mode, tree, fault, entries) == Ending(None, entries - Paths(victim, tree))
  {
    var st := State(entries, None, None, []);
    Removal.RemoveTree(fault, victim, tree, st);
    Removal.KeepGoingRemovesTree(fault, victim, tree, st);
  }

  /** KEEP_GOING deletion throws nothing but the aggregate, and that only
      when it holds at least one exception; as long as no listing breaks off,
      FAIL_FAST throws exactly the first of those, and when neither throws
      both leave the same entries. */
  lemma DeleteRecursiveModesAgree(victim: Path, tree: Node, fault: Path -> Option<IOError>, entries: Entries)
    ensures var kg := DeleteRecursiveSpec(victim, KEEP_GOING, tree, fault, entries);
      kg.thrown.None? || (kg.thrown.value.Aggregate? && kg.thrown.value.suppressed != [])
    ensures Policies.ListingsComplete(Walk(victim, tree)) ==>
      var ff := DeleteRecursiveSpec(victim, FAIL_FAST, tree, fault, entries);
      var kg := DeleteRecursiveSpec(victim, KEEP_GOING, tree, fault, entries);
      (ff.thrown.None? <==> kg.thrown.None?)
      && (ff.thrown.None? ==> ff.entries == kg.entries)
      && (kg.thrown.Some? ==> ff.thrown == Some(IOException(kg.thrown.value.suppressed[0])))
  {
    var st := State(entries, None, None, []);
    Policies.KeepGoingDeletionCompletes(fault, Walk(victim, tree), st);
    if Policies.ListingsComplete(Walk(victim, tree)) {
      Policies.DeletionPoliciesAgree(fault, Walk(victim, tree), st);
    }
  }

  // ---------------------------------------------------------------------
  // openZip

  /** VALID_OPTIONS. */
  predicate ValidZipOption(o: OpenOption) {
    o == CREATE || o == CREATE_NEW || o == NOFOLLOW_LINKS
  }

  const OPTION_NOT_SUPPORTED := "option is not supported"
  const SYMBOLIC_LINK_REFUSED := "refusing to open a symbolic link as a zip file"
  const DIRECTORY_REFUSED := "refusing to open a directory as a zip file"
  const NO_SUCH_ZIP_FILE := "no such zip file"

  /** The checks the option loop makes for one option, in order. */
  function ZipOptionCheck(path: Path, o: Option<OpenOption>, entries: Entries): Option<Raised> {
    if o.None? then Some(NullPointer)
    else if !ValidZipOption(o.value) then Some(Unsupported(Some(OPTION_NOT_SUPPORTED)))
    else if o.value == NOFOLLOW_LINKS && path in entries && entries[path].SymbolicLink? then
      Some(IOException(IOError(OtherIO(SYMBOLIC_LINK_REFUSED), path)))
    else if path in entries && entries[path].Directory? then
      Some(IOException(IOError(IsDirectory(DIRECTORY_REFUSED), path)))
    else None
  }

  /** The first exception of the option loop, if any. */
  function ZipOptionsCheck(path: Path, options: seq<Option<OpenOption>>, entries: Entries): Option<Raised>
    decreases |options|
  {
    if options == [] then None
    else
      var first := ZipOptionCheck(path, options[0], entries);
      if first.Some? then first else ZipOptionsCheck(path, options[1..], entries)
  }

  /** openZip(path, options...): the exception it throws, or the value of
      the "create" entry of the environment handed to newFileSystem. */
  function OpenZipSpec(path: Path, options: seq<Option<OpenOption>>, entries: Entries): Result<bool, Raised> {
    var loop := ZipOptionsCheck(path, options, entries);
    if loop.Some? then Failure(loop.value)
    else
      var fileExists := path in entries;
      var createNew := Some(CREATE_NEW) in options;
      var anyCreate := createNew || Some(CREATE) in options;
      if createNew && fileExists then Failure(IOException(IOError(FileAlreadyExists, path)))
      else if !anyCreate && !fileExists then Failure(NoSuchFileMessage(NO_SUCH_ZIP_FILE))
      else Success(!fileExists)
  }

  /** The decision openZip makes before it opens the zip file system; the
      file system itself is not part of this model. */
  method OpenZip(path: Path, options: seq<Option<OpenOption>>, storage: Storage) returns (r: Result<bool, Raised>)
    ensures r == OpenZipSpec(path, options, storage.entries)
  {
    var isCreateNew := false;
    var anyCreateOption := false;
    var i := 0;
    while i < |options|
      invariant 0 <= i <= |options|
      invariant ZipOptionsCheck(path, options, storage.entries) == ZipOptionsCheck(path, options[i..], storage.entries)
      invariant isCreateNew <==> Some(CREATE_NEW) in options[..i]
      invariant anyCreateOption <==> Some(CREATE_NEW) in options[..i] || Some(CREATE) in options[..i]
    {
      assert options[..i + 1] == options[..i] + [options[i]];
      assert options[i..][1..] == options[i + 1..];
      var option := options[i];
      if option.None? {
        return Failure(NullPointer);
      }
      if !ValidZipOption(option.value) {
        return Failure(Unsupported(Some(OPTION_NOT_SUPPORTED)));
      }
      if option.value == CREATE_NEW {
        isCreateNew := true;
        anyCreateOption := true;
      }
      if option.value == CREATE {
        anyCreateOption := true;
      }
      if option.value == NOFOLLOW_LINKS {
        var link := storage.IsSymbolicLink(path);
        if link {
          return Failure(IOException(IOError(OtherIO(SYMBOLIC_LINK_REFUSED), path)));
        }
      }
      var directory := storage.IsDirectory(path);
      if directory {
        return Failure(IOException(IOError(IsDirectory(DIRECTORY_REFUSED), path)));
      }
      i := i + 1;
    }
    assert options[..i] == options;

    var fileExists := storage.Exists(path);
    if isCreateNew && fileExists {
      return Failure(IOException(IOError(FileAlreadyExists, path)));
    }
    if !anyCreateOption && !fileExists {
      return Failure(NoSuchFileMessage(NO_SUCH_ZIP_FILE));
    }
    r := Success(!fileExists);
  }

  /** The loop's verdict: it throws exactly when some option fails its
      checks, and then the first such option decides the exception. */
  lemma {:induction false} ZipOptionsFirstFailure(path: Path, options: seq<Option<OpenOption>>, entries: Entries)
    ensures ZipOptionsCheck(path, options, entries).None? <==>
      forall k :: 0 <= k < |options| ==> ZipOptionCheck(path, options[k], entries).None?
    ensures ZipOptionsCheck(path, options, entries).Some? ==>
      exists k :: 0 <= k < |options| && ZipOptionsCheck(path, options, entries) == ZipOptionCheck(path, options[k], entries)
        && forall j :: 0 <= j < k ==> ZipOptionCheck(path, options[j], entries).None?
    decreases |options|
  {
    if options != [] {
      ZipOptionsFirstFailure(path, options[1..], entries);
      if ZipOptionCheck(path, options[0], entries).None? && ZipOptionsCheck(path, options[1..], entries).Some? {
        var k :| 0 <= k < |options[1..]| && ZipOptionsCheck(path, options[1..], entries) == ZipOptionCheck(path, options[1..][k], entries)
          && forall j :: 0 <= j < k ==> ZipOptionCheck(path, options[1..][j], entries).None?;
        assert options[1..][k] == options[k + 1];
        forall j | 0 <= j < k + 1
          ensures ZipOptionCheck(path, options[j], entries).None?
        {
          if j > 0 {
            assert options[j] == options[1..][j - 1];
          }
        }
      }
      if ZipOptionsCheck(path, options, entries).None? {
        forall k | 0 <= k < |options|
          ensures ZipOptionCheck(path, options[k], entries).None?
        {
          if k > 0 {
            assert options[k] == options[1..][k - 1];
          }
        }
      }
    }
  }

  /** A successful openZip had only supported options, was not told to
      create a file that exists, and had a create option if the file was
      missing; the file system is to be created exactly when the file does
      not exist. */
  lemma OpenZipSucceeds(path: Path, options: seq<Option<OpenOption>>, entries: Entries)
    ensures var r := OpenZipSpec(path, options, entries);
      r.Success? ==>
        (forall k :: 0 <= k < |options| ==> options[k].Some? && ValidZipOption(options[k].value))
        && (r.value <==> path !in entries)
        && !(Some(CREATE_NEW) in options && path in entries)
        && (path in entries || Some(CREATE) in options || Some(CREATE_NEW) in options)
        && !(path in entries && entries[path].Directory? && options != [])
  {
    ZipOptionsFirstFailure(path, options, entries);
    if OpenZipSpec(path, options, entries).Success? && options != [] {
      assert ZipOptionCheck(path, options[0], entries).None?;
    }
  }

  /** Whatever the path, a supported-option list that names an unsupported
      option is refused with "option is not supported" when the path is
      neither a directory nor a symbolic link. */
  lemma UnsupportedOptionRefused(path: Path, options: seq<Option<OpenOption>>, entries: Entries)
    requires None !in options
    requires !(path in entries && (entries[path].Directory? || entries[path].SymbolicLink?))
    ensures OpenZipSpec(path, options, entries).Failure?
      && OpenZipSpec(path, options, entries).error == Unsupported(Some(OPTION_NOT_SUPPORTED))
      <==> exists k :: 0 <= k < |options| && !ValidZipOption(options[k].value)
  {
    ZipOptionsFirstFailure(path, options, entries);
    forall k | 0 <= k < |options|
      ensures ZipOptionCheck(path, options[k], entries)
        == if ValidZipOption(options[k].value) then None else Some(Unsupported(Some(OPTION_NOT_SUPPORTED)))
    {
      assert options[k] in options;
    }
  }

  /** The directory check sits inside the option loop: with no option at
      all, an existing directory is not refused, while any supported option
      makes openZip refuse it. */
  lemma DirectoryCheckedOnlyInLoop(path: Path, o: OpenOption, entries: Entries)
    requires path in entries && entries[path].Directory? && ValidZipOption(o)
    ensures OpenZipSpec(path, [], entries) == Success(false)
    ensures OpenZipSpec(path, [Some(o)], entries) == Failure(IOException(IOError(IsDirectory(DIRECTORY_REFUSED), path)))
  {
    assert [Some(o)][1..] == [];
  }

  /** The cases of the zip tests: CREATE_NEW on an existing file, a symbolic
      link with NOFOLLOW_LINKS, a missing file without a create option, and
      CREATE on a missing file. */
  lemma ZipDecisions(path: Path, entries: Entries)
    ensures path in entries && entries[path].RegularFile? ==>
      OpenZipSpec(path, [Some(CREATE_NEW)], entries) == Failure(IOException(IOError(FileAlreadyExists, path)))
    ensures path in entries && entries[path].SymbolicLink? ==>
      OpenZipSpec(path, [Some(NOFOLLOW_LINKS)], entries) == Failure(IOException(IOError(OtherIO(SYMBOLIC_LINK_REFUSED), path)))
    ensures path !in entries ==>
      OpenZipSpec(path, [Some(NOFOLLOW_LINKS)], entries) == Failure(NoSuchFileMessage(NO_SUCH_ZIP_FILE))
      && OpenZipSpec(path, [Some(CREATE)], entries) == Success(true)
  {
    assert [Some(CREATE_NEW)][1..] == [] && [Some(NOFOLLOW_LINKS)][1..] == [] && [Some(CREATE)][1..] == [];
  }

  // ---------------------------------------------------------------------
  // doCreateDirectories

  /** The paths doCreateDirectories collects: `p`, then its parents, as long
      as they do not exist. */
  function MissingAncestors(p: Path, entries: Entries): (ms: seq<Path>)
    ensures forall k :: 0 <= k < |ms| ==> ms[k] !in entries && Under(p, ms[k]) && |ms[k].names| + k == |p.names|
    decreases |p.names|
  {
    if p in entries then []
    else if Parent(p).None? then [p]
    else [p] + MissingAncestors(Parent(p).value, entries)
  }

  /** The missing ancestors of `p` from the path `at` upwards, `at` being
      `p` or one of its parents, or none. */
  function MissingFrom(at: Option<Path>, entries: Entries): seq<Path> {
    if at.None? then [] else MissingAncestors(at.value, entries)
  }

  /** setPosixFilePermissions on each path in turn, stopping at the first
      failure. */
  function SetEach(paths: seq<Path>, perms: set<PosixModes.Permission>, fault: Path -> Option<IOError>,
                   entries: Entries, permissions: map<Path, set<PosixModes.Permission>>)
    : (Option<IOError>, map<Path, set<PosixModes.Permission>>)
    decreases |paths|
  {
    if paths == [] then (None, permissions)
    else
      var p := paths[0];
      if fault(p).Some? then (fault(p), permissions)
      else if p !in entries then (Some(IOError(NoSuchFile, p)), permissions)
      else SetEach(paths[1..], perms, fault, entries, permissions[p := perms])
  }

  /** doCreateDirectories(realDir, perms): the error it throws, the entries
      and the permissions afterwards. */
  function DoCreateDirectoriesSpec(realDir: Path, perms: set<PosixModes.Permission>, fault: Path -> Option<IOError>,
                                   entries: Entries, permissions: map<Path, set<PosixModes.Permission>>)
    : (Option<IOError>, Entries, map<Path, set<PosixModes.Permission>>)
  {
    var created := MissingAncestors(realDir, entries);
    var s := CreateDirectoriesSpec(entries, fault, realDir);
    if s.error.Some? then (s.error, s.entries, permissions)
    else
      var r := SetEach(created, perms, fault, s.entries, permissions);
      (r.0, s.entries, r.1)
  }

  method DoCreateDirectories(realDir: Path, perms: set<PosixModes.Permission>, storage: Storage) returns (err: Option<IOError>)
    modifies storage
    ensures (err, storage.entries, storage.permissions)
      == DoCreateDirectoriesSpec(realDir, perms, storage.fault, old(storage.entries), old(storage.permissions))
  {
    var created: seq<Path> := [];
    var parent: Option<Path> := Some(realDir);
    var found := storage.Exists(realDir);
    while parent.Some? && !found
      invariant unchanged(storage)
      invariant found <==> parent.Some? && parent.value in storage.entries
      invariant created + MissingFrom(parent, storage.entries) == MissingAncestors(realDir, storage.entries)
      decreases if parent.Some? then |parent.value.names| + 1 else 0
    {
      created := created + [parent.value];
      parent := Parent(parent.value);
      if parent.Some? {
        found := storage.Exists(parent.value);
      }
    }
    assert created == MissingAncestors(realDir, storage.entries);

    err := storage.CreateDirectories(realDir);
    if err.Some? {
      return;
    }

    ghost var e := storage.entries;
    var i := 0;
    while i < |created|
      invariant 0 <= i <= |created|
      invariant storage.entries == e
      invariant SetEach(created, perms, storage.fault, e, old(storage.permissions))
        == SetEach(created[i..], perms, storage.fault, e, storage.permissions)
    {
      SetEachStep(created, i, perms, storage.fault, e, storage.permissions);
      err := storage.SetPosixFilePermissions(created[i], perms);
      if err.Some? {
        return;
      }
      i := i + 1;
    }
    err := None;
  }

  /** One step of SetEach, from position i of the list. */
  lemma SetEachStep(paths: seq<Path>, i: nat, perms: set<PosixModes.Permission>, fault: Path -> Option<IOError>,
                    entries: Entries, permissions: map<Path, set<PosixModes.Permission>>)
    requires i < |paths|
    ensures SetEach(paths[i..], perms, fault, entries, permissions)
      == if fault(paths[i]).Some? then (fault(paths[i]), permissions)
         else if paths[i] !in entries then (Some(IOError(NoSuchFile, paths[i])), permissions)
         else SetEach(paths[i + 1..], perms, fault, entries, permissions[paths[i] := perms])
  {
    assert paths[i..][0] == paths[i];
    assert paths[i..][1..] == paths[i + 1..];
  }

  /** Files.createDirectories creates exactly the missing ancestors, as
      directories, and leaves every existing entry as it was. */
  lemma {:induction false} CreatesExactlyMissing(entries: Entries, fault: Path -> Option<IOError>, p: Path)
    requires CreateDirectoriesSpec(entries, fault, p).error.None?
    ensures var s := CreateDirectoriesSpec(entries, fault, p);
      var ms := MissingAncestors(p, entries);
      (forall q :: q in s.entries <==> q in entries || q in ms)
      && forall q :: q in ms ==> s.entries[q] == Directory
    decreases |p.names|
  {
    if p !in entries {
      var up := Parent(p).value;
      CreatesExactlyMissing(entries, fault, up);
      assert MissingAncestors(p, entries) == [p] + MissingAncestors(up, entries);
    }
  }

  /** Setting permissions on paths that all exist and never fail gives each
      of them `perms` and leaves every other path alone. */
  lemma {:induction false} SetEachSetsAll(paths: seq<Path>, perms: set<PosixModes.Permission>, fault: Path -> Option<IOError>,
                                          entries: Entries, permissions: map<Path, set<PosixModes.Permission>>)
    requires forall q :: q in paths ==> q in entries && fault(q).None?
    ensures var r := SetEach(paths, perms, fault, entries, permissions);
      r.0.None?
      && (forall q :: q in r.1 <==> q in permissions || q in paths)
      && (forall q :: q in paths ==> r.1[q] == perms)
      && (forall q :: q in permissions && q !in paths ==> r.1[q] == permissions[q])
    decreases |paths|
  {
    if paths != [] {
      assert paths == [paths[0]] + paths[1..];
      SetEachSetsAll(paths[1..], perms, fault, entries, permissions[paths[0] := perms]);
    }
  }

  /** When nothing fails, doCreateDirectories creates the missing ancestors
      of the directory, and only those get the permissions; existing
      entries and the permissions of existing directories stay as they
      were. */
  lemma CreatedDirectoriesGetPermissions(realDir: Path, perms: set<PosixModes.Permission>, fault: Path -> Option<IOError>,
                                         entries: Entries, permissions: map<Path, set<PosixModes.Permission>>)
    requires CreateDirectoriesSpec(entries, fault, realDir).error.None?
    requires forall q :: q in MissingAncestors(realDir, entries) ==> fault(q).None?
    ensures var r := DoCreateDirectoriesSpec(realDir, perms, fault, entries, permissions);
      var ms := MissingAncestors(realDir, entries);
      r.0.None?
      && (forall q :: q in r.1 <==> q in entries || q in ms)
      && (forall q :: q in entries ==> r.1[q] == entries[q])
      && (forall q :: q in ms ==> q !in entries && q in r.1 && r.1[q] == Directory && q in r.2 && r.2[q] == perms)
      && (forall q :: q in permissions && q in entries ==> q in r.2 && r.2[q] == permissions[q])
  {
    var ms := MissingAncestors(realDir, entries);
    var s := CreateDirectoriesSpec(entries, fault, realDir);
    CreatesExactlyMissing(entries, fault, realDir);
    SetEachSetsAll(ms, perms, fault, s.entries, permissions);
  }

  /** createDirectories(dir, mode): the permissions come from the integer
      mode, and a mode with a bit outside 0777 is refused before anything is
      created. */
  method CreateDirectoriesWithMode(dir: Path, mode: bv32, storage: Storage) returns (r: Result<Path, Raised>)
    modifies storage
    ensures !PosixModes.ValidIntMode(mode) ==> r == Failure(InvalidIntMode) && unchanged(storage)
    ensures PosixModes.ValidIntMode(mode) ==>
      var d := DoCreateDirectoriesSpec(dir, PosixModes.ModeToPermissions(PosixModes.JavaInt(mode)), storage.fault,
                                       old(storage.entries), old(storage.permissions));
      (storage.entries, storage.permissions) == (d.1, d.2)
      && r == if d.0.Some? then Failure(IOException(d.0.value)) else Success(dir)
  {
    var perms := PosixModes.IntModeToPosix(mode);
    if perms.InvalidIntMode? {
      return Failure(InvalidIntMode);
    }
    var err := DoCreateDirectories(dir, perms.perms, storage);
    r := if err.Some? then Failure(IOException(err.value)) else Success(dir);
  }
}
