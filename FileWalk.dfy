/** Files.walkFileTree, as the recursive operations see it.

    The walk is taken over a snapshot of the tree below the start path: a
    directory lists its children (in the order the snapshot gives, the
    platform leaving it unspecified) and may report that its listing broke
    off; an entry the walker cannot open is reported as a failure. The walk
    is the sequence of hook calls the walker makes on a visitor:
    preVisitDirectory, the children's events, then postVisitDirectory with the
    listing failure if there was one; visitFile for anything that is not a
    directory (links are not followed); visitFileFailed for an entry that
    cannot be opened.

    This module also holds what the visitors share: the exception a hook
    throws, the state a visitor and the file systems are in, and the
    RecursiveCopyException / RecursiveDeletionException object that collects
    suppressed exceptions.
 */
module FileWalk {
  import opened Wrappers
  import opened Nio

  datatype LeafKind = RegularLeaf | LinkLeaf | OtherLeaf

  /** The walker's view of an entry. */
  datatype Node =
    | Dir(children: seq<Child>, listingError: Option<IOError>)
    | Leaf(kind: LeafKind)
    | Unreadable(error: IOError)

  datatype Child = Child(name: string, node: Node)

  /** One hook call. `regular` is BasicFileAttributes.isRegularFile(). */
  datatype Event =
    | PreVisit(dir: Path)
    | VisitFile(file: Path, regular: bool)
    | VisitFileFailed(file: Path, error: IOError)
    | PostVisit(dir: Path, listingError: Option<IOError>)

  function EventPath(e: Event): Path {
    match e
    case PreVisit(dir) => dir
    case VisitFile(file, _) => file
    case VisitFileFailed(file, _) => file
    case PostVisit(dir, _) => dir
  }

  /** The hook calls of a walk from `p`: every one is about `p` or an entry
      below it. */
  function Walk(p: Path, node: Node): (w: seq<Event>)
    ensures |w| > 0
    ensures forall k :: 0 <= k < |w| ==> Under(EventPath(w[k]), p)
    decreases node
  {
    match node
    case Dir(children, listingError) => [PreVisit(p)] + WalkChildren(p, children) + [PostVisit(p, listingError)]
    case Leaf(kind) => [VisitFile(p, kind == RegularLeaf)]
    case Unreadable(error) => [VisitFileFailed(p, error)]
  }

  function WalkChildren(p: Path, cs: seq<Child>): (w: seq<Event>)
    ensures forall k :: 0 <= k < |w| ==> Under(EventPath(w[k]), p) && EventPath(w[k]) != p
    decreases cs
  {
    if cs == [] then []
    else
      var first := Walk(ChildOf(p, cs[0].name), cs[0].node);
      assert forall k :: 0 <= k < |first| ==> |EventPath(first[k]).names| > |p.names|;
      first + WalkChildren(p, cs[1..])
  }

  /** The paths of the entries of a snapshot: `p` and everything below it. */
  function Paths(p: Path, node: Node): (ps: set<Path>)
    ensures p in ps
    ensures forall q :: q in ps ==> Under(q, p)
    decreases node
  {
    match node
    case Dir(children, _) => {p} + ChildrenPaths(p, children)
    case _ => {p}
  }

  function ChildrenPaths(p: Path, cs: seq<Child>): (ps: set<Path>)
    ensures forall q :: q in ps ==> Under(q, p) && |q.names| > |p.names|
    ensures forall q :: q in ps ==> q.names[|p.names|] in Names(cs)
    decreases cs
  {
    if cs == [] then {}
    else
      var first := Paths(ChildOf(p, cs[0].name), cs[0].node);
      assert forall q :: q in first ==> q.names[|p.names|] == cs[0].name;
      first + ChildrenPaths(p, cs[1..])
  }

  function Names(cs: seq<Child>): seq<string> {
    if cs == [] then [] else [cs[0].name] + Names(cs[1..])
  }

  /** A snapshot in which nothing goes wrong: every directory can be read to
      its end, and the names in a directory are distinct. */
  predicate Clean(node: Node)
    decreases node
  {
    match node
    case Dir(children, listingError) => listingError.None? && CleanChildren(children)
    case Leaf(_) => true
    case Unreadable(_) => false
  }

  predicate CleanChildren(cs: seq<Child>)
    decreases cs
  {
    cs != [] ==> cs[0].name !in Names(cs[1..]) && Clean(cs[0].node) && CleanChildren(cs[1..])
  }

  /** A snapshot that a copy can walk without an UnsupportedOperationException:
      every leaf is a regular file, and the names in a directory are
      distinct. The walker may still fail on some entries. */
  predicate RegularOnly(node: Node)
    decreases node
  {
    match node
    case Dir(children, _) => RegularOnlyChildren(children)
    case Leaf(kind) => kind == RegularLeaf
    case Unreadable(_) => true
  }

  predicate RegularOnlyChildren(cs: seq<Child>)
    decreases cs
  {
    cs != [] ==> cs[0].name !in Names(cs[1..]) && RegularOnly(cs[0].node) && RegularOnlyChildren(cs[1..])
  }

  /** The exceptions the walker reports, in walk order: one for each entry it
      cannot open, one for each listing that broke off. */
  function WalkErrors(node: Node): seq<IOError>
    decreases node
  {
    match node
    case Dir(children, listingError) =>
      ChildrenWalkErrors(children) + (if listingError.Some? then [listingError.value] else [])
    case Leaf(_) => []
    case Unreadable(error) => [error]
  }

  function ChildrenWalkErrors(cs: seq<Child>): seq<IOError>
    decreases cs
  {
    if cs == [] then [] else WalkErrors(cs[0].node) + ChildrenWalkErrors(cs[1..])
  }

  /** The entries a walk reaches: all of the snapshot's but those it cannot
      open. */
  function Reached(p: Path, node: Node): (ps: set<Path>)
    ensures ps <= Paths(p, node)
    decreases node
  {
    match node
    case Dir(children, _) => {p} + ChildrenReached(p, children)
    case Leaf(_) => {p}
    case Unreadable(_) => {}
  }

  function ChildrenReached(p: Path, cs: seq<Child>): (ps: set<Path>)
    ensures ps <= ChildrenPaths(p, cs)
    decreases cs
  {
    if cs == [] then {} else Reached(ChildOf(p, cs[0].name), cs[0].node) + ChildrenReached(p, cs[1..])
  }

  /** How the walker sees an entry that is not a directory. */
  function KindOf(e: Entry): Option<LeafKind> {
    match e
    case Directory => None
    case RegularFile(_) => Some(RegularLeaf)
    case SymbolicLink(_) => Some(LinkLeaf)
    case OtherFile => Some(OtherLeaf)
  }

  /** The snapshot agrees with the entries: a directory for each directory, an
      entry of the right kind for each leaf. */
  predicate Describes(entries: Entries, p: Path, node: Node)
    decreases node
  {
    match node
    case Dir(children, _) => p in entries && entries[p].Directory? && DescribesChildren(entries, p, children)
    case Leaf(kind) =>
      p in entries && KindOf(entries[p]) == Some(kind)
    case Unreadable(_) => p in entries
  }

  predicate DescribesChildren(entries: Entries, p: Path, cs: seq<Child>)
    decreases cs
  {
    cs != [] ==> Describes(entries, ChildOf(p, cs[0].name), cs[0].node) && DescribesChildren(entries, p, cs[1..])
  }

  /** Nothing below `p` exists but what the snapshot shows. */
  predicate Closed(entries: Entries, p: Path, node: Node) {
    forall q :: q in entries && Under(q, p) ==> q in Paths(p, node)
  }

  /** Every entry of a snapshot that describes the entries exists. */
  lemma {:induction false} DescribedExist(entries: Entries, p: Path, node: Node)
    requires Describes(entries, p, node)
    ensures Paths(p, node) <= entries.Keys
    decreases node
  {
    if node.Dir? {
      DescribedChildrenExist(entries, p, node.children);
    }
  }

  lemma {:induction false} DescribedChildrenExist(entries: Entries, p: Path, cs: seq<Child>)
    requires DescribesChildren(entries, p, cs)
    ensures ChildrenPaths(p, cs) <= entries.Keys
    decreases cs
  {
    if cs != [] {
      DescribedExist(entries, ChildOf(p, cs[0].name), cs[0].node);
      DescribedChildrenExist(entries, p, cs[1..]);
    }
  }

  /** A snapshot still describes entries that agree on its own paths. */
  lemma {:induction false} DescribesFrame(entries: Entries, entries': Entries, p: Path, node: Node)
    requires Describes(entries, p, node)
    requires forall q :: q in Paths(p, node) && q in entries ==> q in entries' && entries'[q] == entries[q]
    ensures Describes(entries', p, node)
    decreases node
  {
    if node.Dir? {
      DescribesChildrenFrame(entries, entries', p, node.children);
    }
  }

  lemma {:induction false} DescribesChildrenFrame(entries: Entries, entries': Entries, p: Path, cs: seq<Child>)
    requires DescribesChildren(entries, p, cs)
    requires forall q :: q in ChildrenPaths(p, cs) && q in entries ==> q in entries' && entries'[q] == entries[q]
    ensures DescribesChildren(entries', p, cs)
    decreases cs
  {
    if cs != [] {
      DescribesFrame(entries, entries', ChildOf(p, cs[0].name), cs[0].node);
      DescribesChildrenFrame(entries, entries', p, cs[1..]);
    }
  }

  /** In a clean snapshot the walker reports nothing and reaches every
      entry. */
  lemma {:induction false} CleanIsComplete(p: Path, node: Node)
    requires Clean(node)
    ensures WalkErrors(node) == [] && Reached(p, node) == Paths(p, node)
    decreases node
  {
    if node.Dir? {
      CleanChildrenAreComplete(p, node.children);
    }
  }

  lemma {:induction false} CleanChildrenAreComplete(p: Path, cs: seq<Child>)
    requires CleanChildren(cs)
    ensures ChildrenWalkErrors(cs) == [] && ChildrenReached(p, cs) == ChildrenPaths(p, cs)
    decreases cs
  {
    if cs != [] {
      CleanIsComplete(ChildOf(p, cs[0].name), cs[0].node);
      CleanChildrenAreComplete(p, cs[1..]);
    }
  }

  /** What a hook throws: an IOException or an UnsupportedOperationException. */
  datatype Failure = IO(error: IOError) | UnsupportedOperation

  /** The state a walk works on: the file systems' entries, the visitor's
      currentSrc / currentDst fields, and the exceptions collected so far. */
  datatype State = State(entries: Entries, currentSrc: Option<Path>, currentDst: Option<Path>, suppressed: seq<IOError>)

  /** The outcome of a hook, or of a walk: the exception thrown, if any, and
      the state afterwards. */
  datatype Outcome = Outcome(thrown: Option<Failure>, state: State)

  /** try { ... } catch (IOException e) { exception.addSuppressed(e); }: an
      IOException is collected and the hook returns normally; any other
      exception goes on. */
  function Collect(o: Outcome): (r: Outcome)
    ensures r.thrown.None? || r.thrown == Some(UnsupportedOperation)
  {
    if o.thrown.Some? && o.thrown.value.IO? then
      Outcome(None, o.state.(suppressed := o.state.suppressed + [o.thrown.value.error]))
    else o
  }

  /** RecursiveCopyException and RecursiveDeletionException: the list that
      addSuppressed appends to. */
  class RecursiveException {
    var suppressed: seq<IOError>

    constructor()
      ensures suppressed == []
    {
      suppressed := [];
    }

    method AddSuppressed(e: IOError)
      modifies this
      ensures suppressed == old(suppressed) + [e]
    {
      suppressed := suppressed + [e];
    }
  }
}
