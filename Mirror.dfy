/** What a recursive copy produces when the file operations themselves do
    not fail: the destination becomes a mirror of every entry the walker
    reaches, directories as directories and regular files with their
    contents, whatever the file systems and providers of the two trees; the
    keep-going copy collects exactly the walker's own exceptions, in walk
    order, and the fail-fast copy of a clean tree throws nothing.
 */
module Mirror {
  import opened Wrappers
  import opened Nio
  import opened FileWalk
  import opened Walker
  import Copy
  import Policies

  function Destinations(src: Path, dst: Path, ps: set<Path>): set<Path>
    requires forall q :: q in ps ==> Under(q, src)
  {
    set q | q in ps :: Copy.Destination(src, dst, q)
  }

  /** `after` is `before` with the entries `ps` copied to their
      destinations: nothing that existed changes, and each copied entry has
      the same kind (and contents) as its source. */
  predicate CopiedInto(src: Path, dst: Path, before: Entries, after: Entries, ps: set<Path>)
    requires forall q :: q in ps ==> Under(q, src)
  {
    after.Keys == before.Keys + Destinations(src, dst, ps)
    && (forall x :: x in before ==> after[x] == before[x])
    && (forall q :: q in ps && q in before ==> after[Copy.Destination(src, dst, q)] == before[q])
  }

  /** The parent of `d` is an existing directory. */
  predicate Lands(entries: Entries, d: Path) {
    Parent(d).Some? && Parent(d).value in entries && entries[Parent(d).value].Directory?
  }

  /** Where an entry lies below a directory, its destination lies below the
      directory's, under the same name. */
  lemma DestinationBelow(src: Path, dst: Path, p: Path, name: string, q: Path)
    requires Under(p, src) && Under(q, ChildOf(p, name))
    ensures Under(q, src)
    ensures var d := Copy.Destination(src, dst, p);
      var dq := Copy.Destination(src, dst, q);
      Under(dq, d) && |dq.names| > |d.names| && dq.names[|d.names|] == name
  {
    var d := Copy.Destination(src, dst, p);
    var dq := Copy.Destination(src, dst, q);
    assert q.names[|p.names|] == name;
    assert dq.names[|d.names|] == q.names[|p.names|];
    Copy.DestinationInjective(src, dst, p, q);
  }

  lemma CopiedCompose(src: Path, dst: Path, e0: Entries, e1: Entries, e2: Entries, a: set<Path>, b: set<Path>)
    requires forall q :: q in a + b ==> Under(q, src)
    requires CopiedInto(src, dst, e0, e1, a) && CopiedInto(src, dst, e1, e2, b)
    requires b <= e0.Keys
    ensures CopiedInto(src, dst, e0, e2, a + b)
  {
    assert Destinations(src, dst, a + b) == Destinations(src, dst, a) + Destinations(src, dst, b);
  }

  /** The conditions under which the tree at `p` can be copied: its
      destination is either missing below an existing directory or, for a
      directory, an existing empty directory. */
  predicate Ready(src: Path, dst: Path, entries: Entries, p: Path, node: Node)
    requires Under(p, src)
  {
    var d := Copy.Destination(src, dst, p);
    (forall x :: x in entries && Under(x, d) ==> x == d && node.Dir? && entries[d].Directory?)
    && (d !in entries && !node.Unreadable? ==> Lands(entries, d))
  }

  /** The keep-going copy of the tree at `p`, when it is ready to be copied
      and no copy or creation fails. */
  lemma {:induction false} CopyTree(src: Path, dst: Path, fault: Path -> Option<IOError>, p: Path, node: Node, st: State)
    requires dst.root.Some? && Under(p, src)
    requires RegularOnly(node) && Describes(st.entries, p, node)
    requires Ready(src, dst, st.entries, p, node)
    requires forall q :: q in Paths(p, node) ==> fault(Copy.Destination(src, dst, q)).None?
    ensures AcceptsAll(CopyKeepGoing(src, dst), Walk(p, node))
    ensures var o := Run(CopyKeepGoing(src, dst), fault, Walk(p, node), st);
      o.thrown.None? && o.state.suppressed == st.suppressed + WalkErrors(node)
      && CopiedInto(src, dst, st.entries, o.state.entries, Reached(p, node))
    decreases node, 2
  {
    var d := Copy.Destination(src, dst, p);
    assert Under(d, d);
    match node
    case Leaf(_) =>
      assert Walk(p, node) == [VisitFile(p, true)];
      assert Destinations(src, dst, {p}) == {d};
    case Unreadable(_) =>
      assert Destinations(src, dst, {}) == {};
    case Dir(cs, listingError) =>
      CopyDirectory(src, dst, fault, p, cs, listingError, st);
  }

  /** preVisitDirectory on a ready directory creates its destination, or
      accepts it as it is. */
  lemma PreVisitCreates(src: Path, dst: Path, fault: Path -> Option<IOError>, p: Path, cs: seq<Child>, listingError: Option<IOError>, st: State)
    requires Under(p, src) && Ready(src, dst, st.entries, p, Dir(cs, listingError))
    requires fault(Copy.Destination(src, dst, p)).None?
    ensures var o := Hook(CopyKeepGoing(src, dst), fault, PreVisit(p), st);
      o.thrown.None? && o.state.suppressed == st.suppressed
      && o.state.entries == st.entries[Copy.Destination(src, dst, p) := Directory]
  {
    var d := Copy.Destination(src, dst, p);
    var e := st.entries;
    if d in e {
      assert e[d := Directory] == e;
    } else {
      assert CreateDirectoriesSpec(e, fault, Parent(d).value) == Step(None, e);
    }
  }

  /** After the directory's own destination exists, its children are ready
      to be copied into it. */
  lemma PrepareChildren(src: Path, dst: Path, p: Path, cs: seq<Child>, listingError: Option<IOError>, e: Entries)
    requires Under(p, src) && Describes(e, p, Dir(cs, listingError))
    requires Ready(src, dst, e, p, Dir(cs, listingError))
    ensures var d := Copy.Destination(src, dst, p);
      var e1 := e[d := Directory];
      CopiedInto(src, dst, e, e1, {p})
      && DescribesChildren(e1, p, cs) && ChildrenPaths(p, cs) <= e.Keys
      && forall x :: x in e1 && Under(x, d) && |x.names| > |d.names| ==> x.names[|d.names|] !in Names(cs)
  {
    var d := Copy.Destination(src, dst, p);
    var e1 := e[d := Directory];
    assert Under(d, d);
    assert Destinations(src, dst, {p}) == {d};
    DescribesChildrenFrame(e, e1, p, cs);
    DescribedChildrenExist(e, p, cs);
    forall x | x in e1 && Under(x, d)
      ensures x == d
    {
    }
  }

  /** postVisitDirectory of the keep-going copy only collects the walker's
      exception, if any. */
  lemma PostVisitCollects(src: Path, dst: Path, fault: Path -> Option<IOError>, p: Path, listingError: Option<IOError>, st: State)
    requires Under(p, src)
    ensures Hook(CopyKeepGoing(src, dst), fault, PostVisit(p, listingError), st)
      == Outcome(None, st.(suppressed := st.suppressed + if listingError.Some? then [listingError.value] else []))
  {
  }

  lemma {:induction false} CopyDirectory(src: Path, dst: Path, fault: Path -> Option<IOError>, p: Path, cs: seq<Child>, listingError: Option<IOError>, st: State)
    requires dst.root.Some? && Under(p, src)
    requires RegularOnlyChildren(cs) && Describes(st.entries, p, Dir(cs, listingError))
    requires Ready(src, dst, st.entries, p, Dir(cs, listingError))
    requires forall q :: q in Paths(p, Dir(cs, listingError)) ==> fault(Copy.Destination(src, dst, q)).None?
    ensures AcceptsAll(CopyKeepGoing(src, dst), Walk(p, Dir(cs, listingError)))
    ensures var o := Run(CopyKeepGoing(src, dst), fault, Walk(p, Dir(cs, listingError)), st);
      o.thrown.None? && o.state.suppressed == st.suppressed + WalkErrors(Dir(cs, listingError))
      && CopiedInto(src, dst, st.entries, o.state.entries, Reached(p, Dir(cs, listingError)))
    decreases Dir(cs, listingError), 1
  {
    var policy := CopyKeepGoing(src, dst);
    var node := Dir(cs, listingError);
    var d := Copy.Destination(src, dst, p);
    var e := st.entries;
    var e1 := e[d := Directory];
    assert AcceptsAll(policy, Walk(p, node));
    RunDirectory(policy, fault, p, cs, listingError, st);
    var o1 := Hook(policy, fault, PreVisit(p), st);
    var o2 := Run(policy, fault, WalkChildren(p, cs), o1.state);
    var o3 := Hook(policy, fault, PostVisit(p, listingError), o2.state);
    assert o1.thrown.None? && o1.state.suppressed == st.suppressed && o1.state.entries == e1 by {
      PreVisitCreates(src, dst, fault, p, cs, listingError, st);
    }
    DirectoryChildren(src, dst, fault, p, cs, listingError, e, o1.state);
    assert o3 == Outcome(None, o2.state.(suppressed := st.suppressed + WalkErrors(node))) by {
      PostVisitCollects(src, dst, fault, p, listingError, o2.state);
      ErrorsOfDirectory(st.suppressed, cs, listingError, o2.state.suppressed, o3.state.suppressed);
    }
  }

  /** The children of a directory, once preVisitDirectory has created its
      destination. */
  lemma {:induction false} DirectoryChildren(src: Path, dst: Path, fault: Path -> Option<IOError>, p: Path, cs: seq<Child>, listingError: Option<IOError>, e: Entries, st: State)
    requires dst.root.Some? && Under(p, src)
    requires RegularOnlyChildren(cs) && Describes(e, p, Dir(cs, listingError))
    requires Ready(src, dst, e, p, Dir(cs, listingError))
    requires forall q :: q in Paths(p, Dir(cs, listingError)) ==> fault(Copy.Destination(src, dst, q)).None?
    requires st.entries == e[Copy.Destination(src, dst, p) := Directory]
    ensures AcceptsAll(CopyKeepGoing(src, dst), WalkChildren(p, cs))
    ensures var o := Run(CopyKeepGoing(src, dst), fault, WalkChildren(p, cs), st);
      o.thrown.None? && o.state.suppressed == st.suppressed + ChildrenWalkErrors(cs)
      && CopiedInto(src, dst, e, o.state.entries, Reached(p, Dir(cs, listingError)))
    decreases Dir(cs, listingError), 0
  {
    var o := Run(CopyKeepGoing(src, dst), fault, WalkChildren(p, cs), st);
    var d := Copy.Destination(src, dst, p);
    assert CopiedInto(src, dst, e, st.entries, {p}) && ChildrenPaths(p, cs) <= e.Keys
      && d in st.entries && st.entries[d].Directory?
      && DescribesChildren(st.entries, p, cs)
      && (forall x :: x in st.entries && Under(x, d) && |x.names| > |d.names| ==> x.names[|d.names|] !in Names(cs)) by {
      PrepareChildren(src, dst, p, cs, listingError, e);
    }
    assert AcceptsAll(CopyKeepGoing(src, dst), WalkChildren(p, cs))
      && o.thrown.None? && o.state.suppressed == st.suppressed + ChildrenWalkErrors(cs)
      && CopiedInto(src, dst, st.entries, o.state.entries, ChildrenReached(p, cs)) by {
      CopyChildren(src, dst, fault, p, cs, st);
    }
    DirectoryCompose(src, dst, p, cs, listingError, e, st.entries, o.state.entries);
  }

  lemma DirectoryCompose(src: Path, dst: Path, p: Path, cs: seq<Child>, listingError: Option<IOError>, e0: Entries, e1: Entries, e2: Entries)
    requires Under(p, src) && ChildrenPaths(p, cs) <= e0.Keys
    requires CopiedInto(src, dst, e0, e1, {p}) && CopiedInto(src, dst, e1, e2, ChildrenReached(p, cs))
    ensures CopiedInto(src, dst, e0, e2, Reached(p, Dir(cs, listingError)))
  {
    assert {p} + ChildrenReached(p, cs) == Reached(p, Dir(cs, listingError));
    CopiedCompose(src, dst, e0, e1, e2, {p}, ChildrenReached(p, cs));
  }

  lemma ChildrenCompose(src: Path, dst: Path, p: Path, cs: seq<Child>, e0: Entries, e1: Entries, e2: Entries)
    requires Under(p, src) && cs != [] && Describes(e0, ChildOf(p, cs[0].name), cs[0].node)
    requires CopiedInto(src, dst, e0, e1, Reached(ChildOf(p, cs[0].name), cs[0].node))
    requires CopiedInto(src, dst, e1, e2, ChildrenReached(p, cs[1..]))
    requires ChildrenPaths(p, cs[1..]) <= e0.Keys
    ensures CopiedInto(src, dst, e0, e2, ChildrenReached(p, cs))
  {
    var c := ChildOf(p, cs[0].name);
    DescribedExist(e0, c, cs[0].node);
    CopiedCompose(src, dst, e0, e1, e2, Reached(c, cs[0].node), ChildrenReached(p, cs[1..]));
  }

  /** The first child of a directory whose destination exists is ready to be
      copied. */
  lemma FirstChildReady(src: Path, dst: Path, p: Path, cs: seq<Child>, e: Entries)
    requires dst.root.Some? && Under(p, src) && cs != []
    requires var d := Copy.Destination(src, dst, p);
      d in e && e[d].Directory?
      && forall x :: x in e && Under(x, d) && |x.names| > |d.names| ==> x.names[|d.names|] !in Names(cs)
    ensures Under(ChildOf(p, cs[0].name), src)
    ensures Ready(src, dst, e, ChildOf(p, cs[0].name), cs[0].node)
  {
    var d := Copy.Destination(src, dst, p);
    var c := ChildOf(p, cs[0].name);
    var dc := Copy.Destination(src, dst, c);
    assert dc.names == d.names + [cs[0].name] by {
      assert c.names[|src.names|..] == p.names[|src.names|..] + [cs[0].name];
    }
    assert Parent(dc) == Some(d);
    forall x | Under(x, dc)
      ensures Under(x, d) && |x.names| > |d.names| && x.names[|d.names|] == cs[0].name
    {
      assert x.names[|d.names|] == dc.names[|d.names|];
    }
    assert cs[0].name in Names(cs);
  }

  /** Once the first child is copied, the others are still ready: their
      names are not the first child's. */
  lemma OthersStillReady(src: Path, dst: Path, p: Path, cs: seq<Child>, e: Entries, e1: Entries)
    requires Under(p, src) && cs != [] && RegularOnlyChildren(cs) && DescribesChildren(e, p, cs)
    requires var d := Copy.Destination(src, dst, p);
      d in e && e[d].Directory?
      && forall x :: x in e && Under(x, d) && |x.names| > |d.names| ==> x.names[|d.names|] !in Names(cs)
    requires CopiedInto(src, dst, e, e1, Reached(ChildOf(p, cs[0].name), cs[0].node))
    ensures var d := Copy.Destination(src, dst, p);
      d in e1 && e1[d].Directory? && DescribesChildren(e1, p, cs[1..]) && ChildrenPaths(p, cs[1..]) <= e.Keys
      && forall x :: x in e1 && Under(x, d) && |x.names| > |d.names| ==> x.names[|d.names|] !in Names(cs[1..])
  {
    var d := Copy.Destination(src, dst, p);
    var c := ChildOf(p, cs[0].name);
    DescribedChildrenExist(e, p, cs[1..]);
    DescribesChildrenFrame(e, e1, p, cs[1..]);
    forall x | x in e1 && Under(x, d) && |x.names| > |d.names|
      ensures x.names[|d.names|] !in Names(cs[1..])
    {
      if x !in e {
        var q :| q in Reached(c, cs[0].node) && x == Copy.Destination(src, dst, q);
        DestinationBelow(src, dst, p, cs[0].name, q);
      }
    }
  }

  /** The errors of a walk over children are those of the first child's
      walk, then those of the others. */
  lemma ErrorsCompose(s0: seq<IOError>, cs: seq<Child>, s1: seq<IOError>, s2: seq<IOError>)
    requires cs != [] && s1 == s0 + WalkErrors(cs[0].node) && s2 == s1 + ChildrenWalkErrors(cs[1..])
    ensures s2 == s0 + ChildrenWalkErrors(cs)
  {
    assert ChildrenWalkErrors(cs) == WalkErrors(cs[0].node) + ChildrenWalkErrors(cs[1..]);
  }

  /** The errors of a walk over a directory are those of its children's
      walks, then the listing's. */
  lemma ErrorsOfDirectory(s0: seq<IOError>, cs: seq<Child>, listingError: Option<IOError>, s2: seq<IOError>, s3: seq<IOError>)
    requires s2 == s0 + ChildrenWalkErrors(cs)
    requires s3 == s2 + if listingError.Some? then [listingError.value] else []
    ensures s3 == s0 + WalkErrors(Dir(cs, listingError))
  {
  }

  /** The keep-going copy of the first child of a directory. */
  lemma {:induction false} CopyFirstChild(src: Path, dst: Path, fault: Path -> Option<IOError>, p: Path, cs: seq<Child>, st: State)
    requires dst.root.Some? && Under(p, src) && cs != []
    requires RegularOnlyChildren(cs) && DescribesChildren(st.entries, p, cs)
    requires var d := Copy.Destination(src, dst, p);
      d in st.entries && st.entries[d].Directory?
      && forall x :: x in st.entries && Under(x, d) && |x.names| > |d.names| ==> x.names[|d.names|] !in Names(cs)
    requires forall q :: q in ChildrenPaths(p, cs) ==> fault(Copy.Destination(src, dst, q)).None?
    ensures var c := ChildOf(p, cs[0].name);
      Under(c, src) && AcceptsAll(CopyKeepGoing(src, dst), Walk(c, cs[0].node))
    ensures var c := ChildOf(p, cs[0].name);
      var o := Run(CopyKeepGoing(src, dst), fault, Walk(c, cs[0].node), st);
      o.thrown.None? && o.state.suppressed == st.suppressed + WalkErrors(cs[0].node)
      && CopiedInto(src, dst, st.entries, o.state.entries, Reached(c, cs[0].node))
    decreases cs, 0
  {
    FirstChildReady(src, dst, p, cs, st.entries);
    CopyTree(src, dst, fault, ChildOf(p, cs[0].name), cs[0].node, st);
  }

  /** The keep-going copy of the other children of a directory, once the
      first is copied. */
  lemma {:induction false} CopyOtherChildren(src: Path, dst: Path, fault: Path -> Option<IOError>, p: Path, cs: seq<Child>, st: State, st1: State)
    requires dst.root.Some? && Under(p, src) && cs != []
    requires RegularOnlyChildren(cs) && DescribesChildren(st.entries, p, cs)
    requires var d := Copy.Destination(src, dst, p);
      d in st.entries && st.entries[d].Directory?
      && forall x :: x in st.entries && Under(x, d) && |x.names| > |d.names| ==> x.names[|d.names|] !in Names(cs)
    requires forall q :: q in ChildrenPaths(p, cs) ==> fault(Copy.Destination(src, dst, q)).None?
    requires CopiedInto(src, dst, st.entries, st1.entries, Reached(ChildOf(p, cs[0].name), cs[0].node))
    ensures ChildrenPaths(p, cs[1..]) <= st.entries.Keys
    ensures AcceptsAll(CopyKeepGoing(src, dst), WalkChildren(p, cs[1..]))
    ensures var o := Run(CopyKeepGoing(src, dst), fault, WalkChildren(p, cs[1..]), st1);
      o.thrown.None? && o.state.suppressed == st1.suppressed + ChildrenWalkErrors(cs[1..])
      && CopiedInto(src, dst, st1.entries, o.state.entries, ChildrenReached(p, cs[1..]))
    decreases cs, 0
  {
    OthersStillReady(src, dst, p, cs, st.entries, st1.entries);
    CopyChildren(src, dst, fault, p, cs[1..], st1);
  }

  /** The keep-going copy of the children of a directory whose destination
      exists, when nothing below that destination bears one of their
      names. */
  lemma {:induction false} CopyChildren(src: Path, dst: Path, fault: Path -> Option<IOError>, p: Path, cs: seq<Child>, st: State)
    requires dst.root.Some? && Under(p, src)
    requires RegularOnlyChildren(cs) && DescribesChildren(st.entries, p, cs)
    requires var d := Copy.Destination(src, dst, p);
      d in st.entries && st.entries[d].Directory?
      && forall x :: x in st.entries && Under(x, d) && |x.names| > |d.names| ==> x.names[|d.names|] !in Names(cs)
    requires forall q :: q in ChildrenPaths(p, cs) ==> fault(Copy.Destination(src, dst, q)).None?
    ensures AcceptsAll(CopyKeepGoing(src, dst), WalkChildren(p, cs))
    ensures var o := Run(CopyKeepGoing(src, dst), fault, WalkChildren(p, cs), st);
      o.thrown.None? && o.state.suppressed == st.suppressed + ChildrenWalkErrors(cs)
      && CopiedInto(src, dst, st.entries, o.state.entries, ChildrenReached(p, cs))
    decreases cs, 1
  {
    var policy := CopyKeepGoing(src, dst);
    var e := st.entries;
    if cs == [] {
      assert Destinations(src, dst, {}) == {};
    } else {
      var c := ChildOf(p, cs[0].name);
      var o1 := Run(policy, fault, Walk(c, cs[0].node), st);
      var e1 := o1.state.entries;
      var o2 := Run(policy, fault, WalkChildren(p, cs[1..]), o1.state);
      CopyFirstChild(src, dst, fault, p, cs, st);
      CopyOtherChildren(src, dst, fault, p, cs, st, o1.state);
      RunChildren(policy, fault, p, cs, st);
      ChildrenCompose(src, dst, p, cs, e, e1, o2.state.entries);
      ErrorsCompose(st.suppressed, cs, o1.state.suppressed, o2.state.suppressed);
    }
  }

  /** The fail-fast copy of a clean tree that holds only directories and
      regular files throws nothing and mirrors every entry. */
  lemma FailFastCopyOfCleanTree(src: Path, dst: Path, fault: Path -> Option<IOError>, p: Path, node: Node, st: State)
    requires dst.root.Some? && Under(p, src)
    requires Clean(node) && RegularOnly(node) && Describes(st.entries, p, node)
    requires Ready(src, dst, st.entries, p, node) && st.suppressed == []
    requires forall q :: q in Paths(p, node) ==> fault(Copy.Destination(src, dst, q)).None?
    ensures AcceptsAll(CopyFailFast(src, dst), Walk(p, node))
    ensures var o := Run(CopyFailFast(src, dst), fault, Walk(p, node), st);
      o.thrown.None? && o.state.suppressed == []
      && CopiedInto(src, dst, st.entries, o.state.entries, Paths(p, node))
  {
    var w := Walk(p, node);
    assert forall k :: 0 <= k < |w| ==> Under(EventPath(w[k]), src);
    CopyTree(src, dst, fault, p, node, st);
    CleanIsComplete(p, node);
    Policies.CopyPoliciesAgree(src, dst, fault, w, st);
  }

  /** The tree of the copy below, as the walker sees it: `dir1` cannot be
      opened. */
  function UnreadableSubdirectory(src: Path): Node {
    Dir([Child("dir1", Unreadable(IOError(AccessDenied, ChildOf(src, "dir1"))))], None)
  }

  lemma UnreadableSubdirectoryReady(src: Path, dst: Path, entries: Entries)
    requires dst.root.Some? && dst.fs != src.fs
    requires entries == map[src := Directory, ChildOf(src, "dir1") := Directory,
                            ChildOf(ChildOf(src, "dir1"), "file1") := RegularFile([]), dst := Directory]
    ensures RegularOnly(UnreadableSubdirectory(src)) && Describes(entries, src, UnreadableSubdirectory(src))
    ensures Ready(src, dst, entries, src, UnreadableSubdirectory(src))
    ensures WalkErrors(UnreadableSubdirectory(src)) == [IOError(AccessDenied, ChildOf(src, "dir1"))]
    ensures Reached(src, UnreadableSubdirectory(src)) == {src}
  {
    var node := UnreadableSubdirectory(src);
    var cs := node.children;
    assert Copy.Destination(src, dst, src) == dst;
    forall x | x in entries && Under(x, dst)
      ensures x == dst
    {
    }
    assert cs[1..] == [];
    assert ChildrenWalkErrors(cs) == [IOError(AccessDenied, ChildOf(src, "dir1"))] + ChildrenWalkErrors(cs[1..]);
    assert ChildrenReached(src, cs) == {} + ChildrenReached(src, cs[1..]);
  }

  /** The copy of a tree whose one subdirectory cannot be opened: the
      keep-going copy records the walker's AccessDeniedException, and only
      that one, and goes on. */
  lemma UnreadableSubdirectoryIsCollected(src: Path, dst: Path, entries: Entries)
    requires dst.root.Some? && dst.fs != src.fs
    requires entries == map[src := Directory, ChildOf(src, "dir1") := Directory,
                            ChildOf(ChildOf(src, "dir1"), "file1") := RegularFile([]), dst := Directory]
    ensures var node := UnreadableSubdirectory(src);
      var o := Run(CopyKeepGoing(src, dst), (q: Path) => None, Walk(src, node), State(entries, None, None, []));
      AcceptsAll(CopyKeepGoing(src, dst), Walk(src, node))
      && o.thrown.None? && o.state.suppressed == [IOError(AccessDenied, ChildOf(src, "dir1"))]
      && o.state.entries == entries
  {
    var node := UnreadableSubdirectory(src);
    var st := State(entries, None, None, []);
    var fault := (q: Path) => None;
    var o := Run(CopyKeepGoing(src, dst), fault, Walk(src, node), st);
    assert AcceptsAll(CopyKeepGoing(src, dst), Walk(src, node))
      && o.thrown.None? && o.state.suppressed == [IOError(AccessDenied, ChildOf(src, "dir1"))]
      && CopiedInto(src, dst, entries, o.state.entries, {src}) by {
      UnreadableSubdirectoryReady(src, dst, entries);
      CopyTree(src, dst, fault, src, node, st);
    }
    assert Copy.Destination(src, dst, src) == dst;
    assert Destinations(src, dst, {src}) == {dst};
  }
}
