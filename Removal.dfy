/** What a recursive deletion does to a tree: when no deletion fails and
    nothing below the victim escapes the walk, the fail-fast and keep-going
    visitors both remove exactly the victim's entries, in post-order, and
    leave everything else, including the targets of the symbolic links they
    remove, as it was. When a deletion fails, the fail-fast visitor stops
    there and the keep-going visitor records the failure and goes on.
 */
module Removal {
  import opened Wrappers
  import opened Nio
  import opened FileWalk
  import opened Walker
  import Policies

  /** Every entry strictly below `p` belongs to the tree of one of the
      children. */
  predicate ChildrenClosed(entries: Entries, p: Path, cs: seq<Child>) {
    forall q :: q in entries && Under(q, p) && q != p ==> q in ChildrenPaths(p, cs)
  }

  /** The trees of the later children lie outside the first child's. */
  lemma SiblingsApart(p: Path, cs: seq<Child>)
    requires cs != [] && cs[0].name !in Names(cs[1..])
    ensures forall q :: q in ChildrenPaths(p, cs[1..]) ==> !Under(q, ChildOf(p, cs[0].name))
  {
    var c := ChildOf(p, cs[0].name);
    forall q | q in ChildrenPaths(p, cs[1..])
      ensures !Under(q, c)
    {
      assert q.names[|p.names|] in Names(cs[1..]);
      assert c.names[|p.names|] == cs[0].name;
    }
  }

  /** The fail-fast deletion of a clean tree whose deletions all succeed
      removes exactly the tree's entries and throws nothing. */
  lemma {:induction false} RemoveTree(fault: Path -> Option<IOError>, p: Path, node: Node, st: State)
    requires Clean(node) && Describes(st.entries, p, node) && Closed(st.entries, p, node)
    requires forall q :: q in Paths(p, node) ==> fault(q).None?
    ensures Run(DeleteFailFast, fault, Walk(p, node), st) == Outcome(None, st.(entries := st.entries - Paths(p, node)))
    decreases node, 1
  {
    match node
    case Leaf(kind) =>
      assert Walk(p, node) == [VisitFile(p, kind == RegularLeaf)];
      assert Walk(p, node)[..0] == [];
    case Dir(cs, listingError) =>
      RemoveDirectory(fault, p, cs, st);
  }

  lemma {:induction false} RemoveDirectory(fault: Path -> Option<IOError>, p: Path, cs: seq<Child>, st: State)
    requires CleanChildren(cs) && Describes(st.entries, p, Dir(cs, None)) && Closed(st.entries, p, Dir(cs, None))
    requires forall q :: q in Paths(p, Dir(cs, None)) ==> fault(q).None?
    ensures Run(DeleteFailFast, fault, Walk(p, Dir(cs, None)), st)
      == Outcome(None, st.(entries := st.entries - Paths(p, Dir(cs, None))))
    decreases Dir(cs, None), 0
  {
    var e := st.entries;
    var e2 := e - ChildrenPaths(p, cs);
    RunDirectory(DeleteFailFast, fault, p, cs, None, st);
    assert Run(DeleteFailFast, fault, WalkChildren(p, cs), st) == Outcome(None, st.(entries := e2)) by {
      assert ChildrenClosed(e, p, cs);
      RemoveChildren(fault, p, cs, st);
    }
    EmptiedDirectoryGoes(fault, p, cs, st);
  }

  /** Once the first child's tree is gone, the others are as they were, and
      still nothing else lies below the directory. */
  lemma FirstRemoved(p: Path, cs: seq<Child>, e: Entries)
    requires cs != [] && CleanChildren(cs) && DescribesChildren(e, p, cs) && ChildrenClosed(e, p, cs)
    ensures Closed(e, ChildOf(p, cs[0].name), cs[0].node)
    ensures var e1 := e - Paths(ChildOf(p, cs[0].name), cs[0].node);
      DescribesChildren(e1, p, cs[1..]) && ChildrenClosed(e1, p, cs[1..])
  {
    var c := ChildOf(p, cs[0].name);
    var first := Paths(c, cs[0].node);
    var e1 := e - first;
    SiblingsApart(p, cs);
    forall q | q in e && Under(q, c)
      ensures q in first
    {
    }
    DescribesChildrenFrame(e, e1, p, cs[1..]);
  }

  lemma RemovedInTurn(e: Entries, a: set<Path>, b: set<Path>)
    ensures (e - a) - b == e - (a + b)
  {
  }

  /** Once its children's trees are gone, postVisitDirectory deletes the
      directory itself. */
  lemma EmptiedDirectoryGoes(fault: Path -> Option<IOError>, p: Path, cs: seq<Child>, st: State)
    requires p in st.entries && st.entries[p].Directory? && Closed(st.entries, p, Dir(cs, None)) && fault(p).None?
    ensures var e2 := st.entries - ChildrenPaths(p, cs);
      Hook(DeleteFailFast, fault, PostVisit(p, None), st.(entries := e2))
      == Outcome(None, st.(entries := st.entries - Paths(p, Dir(cs, None))))
  {
    var e := st.entries;
    var e2 := e - ChildrenPaths(p, cs);
    assert p !in ChildrenPaths(p, cs);
    assert !HasChildren(e2, p);
    RemovedInTurn(e, ChildrenPaths(p, cs), {p});
    assert ChildrenPaths(p, cs) + {p} == Paths(p, Dir(cs, None));
  }

  /** The fail-fast deletion of the children of a directory, one tree after
      the other. */
  lemma {:induction false} RemoveChildren(fault: Path -> Option<IOError>, p: Path, cs: seq<Child>, st: State)
    requires CleanChildren(cs) && DescribesChildren(st.entries, p, cs) && ChildrenClosed(st.entries, p, cs)
    requires forall q :: q in ChildrenPaths(p, cs) ==> fault(q).None?
    ensures Run(DeleteFailFast, fault, WalkChildren(p, cs), st)
      == Outcome(None, st.(entries := st.entries - ChildrenPaths(p, cs)))
    decreases cs
  {
    var e := st.entries;
    if cs == [] {
      assert e - {} == e;
    } else {
      var c := ChildOf(p, cs[0].name);
      var first := Paths(c, cs[0].node);
      var e1 := e - first;
      FirstRemoved(p, cs, e);
      assert Run(DeleteFailFast, fault, Walk(c, cs[0].node), st) == Outcome(None, st.(entries := e1)) by {
        RemoveTree(fault, c, cs[0].node, st);
      }
      assert Run(DeleteFailFast, fault, WalkChildren(p, cs[1..]), st.(entries := e1))
        == Outcome(None, st.(entries := e1 - ChildrenPaths(p, cs[1..]))) by {
        RemoveChildren(fault, p, cs[1..], st.(entries := e1));
      }
      RunChildren(DeleteFailFast, fault, p, cs, st);
      RemovedInTurn(e, first, ChildrenPaths(p, cs[1..]));
    }
  }

  /** A walk over a clean tree reports no broken listing. */
  lemma {:induction false} CleanListingsComplete(p: Path, node: Node)
    requires Clean(node)
    ensures Policies.ListingsComplete(Walk(p, node))
    decreases node
  {
    if node.Dir? {
      CleanChildrenListingsComplete(p, node.children);
      var w := Walk(p, node);
      var inner := WalkChildren(p, node.children);
      forall k | 0 <= k < |w|
        ensures !(w[k].PostVisit? && w[k].listingError.Some?)
      {
        if 0 < k < |w| - 1 {
          assert w[k] == inner[k - 1];
        }
      }
    }
  }

  lemma {:induction false} CleanChildrenListingsComplete(p: Path, cs: seq<Child>)
    requires CleanChildren(cs)
    ensures Policies.ListingsComplete(WalkChildren(p, cs))
    decreases cs
  {
    if cs != [] {
      var first := Walk(ChildOf(p, cs[0].name), cs[0].node);
      var rest := WalkChildren(p, cs[1..]);
      CleanListingsComplete(ChildOf(p, cs[0].name), cs[0].node);
      CleanChildrenListingsComplete(p, cs[1..]);
      var w := WalkChildren(p, cs);
      assert w == first + rest;
      forall k | 0 <= k < |w|
        ensures !(w[k].PostVisit? && w[k].listingError.Some?)
      {
        if k < |first| {
          assert w[k] == first[k];
        } else {
          assert w[k] == rest[k - |first|];
        }
      }
    }
  }

  /** The keep-going deletion of such a tree does the same, and collects
      nothing. */
  lemma KeepGoingRemovesTree(fault: Path -> Option<IOError>, p: Path, node: Node, st: State)
    requires Clean(node) && Describes(st.entries, p, node) && Closed(st.entries, p, node)
    requires forall q :: q in Paths(p, node) ==> fault(q).None?
    requires st.suppressed == []
    ensures Run(DeleteKeepGoing, fault, Walk(p, node), st) == Outcome(None, st.(entries := st.entries - Paths(p, node)))
  {
    RemoveTree(fault, p, node, st);
    CleanListingsComplete(p, node);
    Policies.DeletionPoliciesAgree(fault, Walk(p, node), st);
  }

  /** A directory holding one file that cannot be deleted (its directory is
      not writable). */
  function NonWritable(): Node {
    Dir([Child("bar", Leaf(RegularLeaf))], None)
  }

  function DeniedAt(bar: Path): Path -> Option<IOError> {
    (q: Path) => if q == bar then Some(IOError(AccessDenied, bar)) else None
  }

  lemma NonWritableWalk(dir: Path)
    ensures Walk(dir, NonWritable())
      == [PreVisit(dir), VisitFile(ChildOf(dir, "bar"), true), PostVisit(dir, None)]
  {
    var cs := NonWritable().children;
    assert cs[1..] == [];
    assert WalkChildren(dir, cs) == [VisitFile(ChildOf(dir, "bar"), true)] + WalkChildren(dir, cs[1..]);
  }

  /** The fail-fast deletion stops at the file it cannot delete, throws the
      AccessDeniedException, and has deleted nothing. */
  lemma NonWritableDirectoryAborts(dir: Path, entries: Entries)
    requires entries == map[dir := Directory, ChildOf(dir, "bar") := RegularFile([])]
    ensures var bar := ChildOf(dir, "bar");
      var o := Run(DeleteFailFast, DeniedAt(bar), Walk(dir, NonWritable()), State(entries, None, None, []));
      o.thrown == Some(IO(IOError(AccessDenied, bar))) && o.state.entries == entries
  {
    var bar := ChildOf(dir, "bar");
    var fault := DeniedAt(bar);
    var w := Walk(dir, NonWritable());
    var st := State(entries, None, None, []);
    NonWritableWalk(dir);
    assert w[..1] == [PreVisit(dir)] && w[..2] == [PreVisit(dir), VisitFile(bar, true)];
    assert w[..1][..0] == [];
    assert w[..2][..1] == w[..1];
    assert Run(DeleteFailFast, fault, w[..1], st) == Outcome(None, st);
    assert Run(DeleteFailFast, fault, w[..2], st).thrown == Some(IO(IOError(AccessDenied, bar)));
    ThrownEndsWalk(DeleteFailFast, fault, w, 2, st);
  }

  /** The keep-going deletion of the same directory records the
      AccessDeniedException, then the DirectoryNotEmptyException of the
      directory that still holds the file, and throws nothing. */
  lemma NonWritableDirectoryCollects(dir: Path, entries: Entries)
    requires entries == map[dir := Directory, ChildOf(dir, "bar") := RegularFile([])]
    ensures var bar := ChildOf(dir, "bar");
      var o := Run(DeleteKeepGoing, DeniedAt(bar), Walk(dir, NonWritable()), State(entries, None, None, []));
      o.thrown.None? && o.state.entries == entries
      && o.state.suppressed == [IOError(AccessDenied, bar), IOError(DirectoryNotEmpty, dir)]
  {
    var bar := ChildOf(dir, "bar");
    var fault := DeniedAt(bar);
    var w := Walk(dir, NonWritable());
    var st := State(entries, None, None, []);
    NonWritableWalk(dir);
    assert w[..1] == [PreVisit(dir)] && w[..2] == [PreVisit(dir), VisitFile(bar, true)];
    assert w[..1][..0] == [];
    assert w[..2][..1] == w[..1];
    assert w[..3] == w;
    assert Run(DeleteKeepGoing, fault, w[..1], st) == Outcome(None, st);
    var o2 := Run(DeleteKeepGoing, fault, w[..2], st);
    assert o2 == Outcome(None, st.(suppressed := [IOError(AccessDenied, bar)]));
    assert Under(bar, dir) && bar != dir;
    assert HasChildren(entries, dir);
  }
}
