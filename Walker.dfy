/** Files.walkFileTree driving one of the four visitors of the recursive
    operations.

    `Run` is the walk as a specification: the hooks are applied to the
    events in order, and the first exception a hook throws ends the walk and
    is what walkFileTree throws. `WalkFileTree` is the walk as the visitors
    meet it, one hook call at a time on the visitor object and the storage,
    proved against `Run`.
 */
module Walker {
  import opened Wrappers
  import opened Nio
  import opened FileWalk
  import Copy
  import Deletion

  /** Which visitor a walk drives; a copy visitor knows its two roots. */
  datatype Policy =
    | CopyFailFast(src: Path, dst: Path)
    | CopyKeepGoing(src: Path, dst: Path)
    | DeleteFailFast
    | DeleteKeepGoing

  /** A copy visitor is only ever called for entries below its source. */
  predicate Accepts(policy: Policy, e: Event) {
    (policy.CopyFailFast? || policy.CopyKeepGoing?) ==> Under(EventPath(e), policy.src)
  }

  predicate AcceptsAll(policy: Policy, events: seq<Event>) {
    forall k :: 0 <= k < |events| ==> Accepts(policy, events[k])
  }

  /** The hook of the visitor for one event. */
  function Hook(policy: Policy, fault: Path -> Option<IOError>, e: Event, st: State): Outcome
    requires Accepts(policy, e)
  {
    match policy
    case CopyFailFast(src, dst) => Copy.FailFastHook(src, dst, fault, e, st)
    case CopyKeepGoing(src, dst) => Copy.KeepGoingHook(src, dst, fault, e, st)
    case DeleteFailFast => Deletion.FailFastHook(fault, e, st)
    case DeleteKeepGoing => Deletion.KeepGoingHook(fault, e, st)
  }

  /** The walk over `events`: hook after hook until one throws. */
  function Run(policy: Policy, fault: Path -> Option<IOError>, events: seq<Event>, st: State): Outcome
    requires AcceptsAll(policy, events)
    decreases |events|
  {
    if events == [] then Outcome(None, st)
    else
      var before := Run(policy, fault, events[..|events| - 1], st);
      if before.thrown.Some? then before
      else Hook(policy, fault, events[|events| - 1], before.state)
  }

  /** A walk over two runs of events is the walk over the first, then, unless
      it threw, the walk over the second from where the first left off. */
  lemma {:induction false} RunAppend(policy: Policy, fault: Path -> Option<IOError>, a: seq<Event>, b: seq<Event>, st: State)
    requires AcceptsAll(policy, a) && AcceptsAll(policy, b)
    ensures AcceptsAll(policy, a + b)
    ensures Run(policy, fault, a + b, st)
      == var r := Run(policy, fault, a, st); if r.thrown.Some? then r else Run(policy, fault, b, r.state)
    decreases |b|
  {
    assert AcceptsAll(policy, a + b) by {
      forall k | 0 <= k < |a + b| ensures Accepts(policy, (a + b)[k]) {
        if k >= |a| { assert (a + b)[k] == b[k - |a|]; }
      }
    }
    if b == [] {
      assert a + b == a;
    } else {
      var init := b[..|b| - 1];
      assert AcceptsAll(policy, init);
      RunAppend(policy, fault, a, init, st);
      assert (a + b)[..|a + b| - 1] == a + init;
      assert (a + b)[|a + b| - 1] == b[|b| - 1];
    }
  }

  /** One event more. */
  lemma RunStep(policy: Policy, fault: Path -> Option<IOError>, events: seq<Event>, k: nat, st: State)
    requires AcceptsAll(policy, events) && k < |events|
    ensures AcceptsAll(policy, events[..k]) && AcceptsAll(policy, events[..k + 1])
    ensures Run(policy, fault, events[..k + 1], st)
      == var r := Run(policy, fault, events[..k], st); if r.thrown.Some? then r else Hook(policy, fault, events[k], r.state)
  {
    assert events[..k + 1][..k] == events[..k];
  }

  /** Once a hook has thrown, the rest of the events are never seen. */
  lemma ThrownEndsWalk(policy: Policy, fault: Path -> Option<IOError>, events: seq<Event>, k: nat, st: State)
    requires AcceptsAll(policy, events) && k <= |events|
    requires AcceptsAll(policy, events[..k]) && Run(policy, fault, events[..k], st).thrown.Some?
    ensures Run(policy, fault, events, st) == Run(policy, fault, events[..k], st)
  {
    assert events[..k] + events[k..] == events;
    assert AcceptsAll(policy, events[k..]) by {
      forall j | 0 <= j < |events[k..]| ensures Accepts(policy, events[k..][j]) {
        assert events[k..][j] == events[k + j];
      }
    }
    RunAppend(policy, fault, events[..k], events[k..], st);
  }

  /** The walk of a directory: preVisitDirectory, the walk of its children,
      postVisitDirectory, each only if nothing was thrown before. */
  lemma RunDirectory(policy: Policy, fault: Path -> Option<IOError>, p: Path, cs: seq<Child>, listingError: Option<IOError>, st: State)
    requires AcceptsAll(policy, Walk(p, Dir(cs, listingError)))
    ensures Accepts(policy, PreVisit(p)) && Accepts(policy, PostVisit(p, listingError))
    ensures AcceptsAll(policy, WalkChildren(p, cs))
    ensures Run(policy, fault, Walk(p, Dir(cs, listingError)), st)
      == var o1 := Hook(policy, fault, PreVisit(p), st);
         if o1.thrown.Some? then o1
         else
           var o2 := Run(policy, fault, WalkChildren(p, cs), o1.state);
           if o2.thrown.Some? then o2 else Hook(policy, fault, PostVisit(p, listingError), o2.state)
  {
    var w := Walk(p, Dir(cs, listingError));
    var pre, mid, post := [PreVisit(p)], WalkChildren(p, cs), [PostVisit(p, listingError)];
    assert w == pre + mid + post;
    assert w[0] == PreVisit(p) && w[|w| - 1] == PostVisit(p, listingError);
    assert AcceptsAll(policy, mid) by {
      forall k | 0 <= k < |mid| ensures Accepts(policy, mid[k]) {
        assert mid[k] == w[k + 1];
      }
    }
    RunAppend(policy, fault, pre + mid, post, st);
    RunAppend(policy, fault, pre, mid, st);
    assert [PreVisit(p)][..0] == [];
  }

  /** The walk of a directory's children: the walk of the first, then, unless
      it threw, the walk of the others. */
  lemma RunChildren(policy: Policy, fault: Path -> Option<IOError>, p: Path, cs: seq<Child>, st: State)
    requires cs != [] && AcceptsAll(policy, WalkChildren(p, cs))
    ensures AcceptsAll(policy, Walk(ChildOf(p, cs[0].name), cs[0].node))
    ensures AcceptsAll(policy, WalkChildren(p, cs[1..]))
    ensures Run(policy, fault, WalkChildren(p, cs), st)
      == var o1 := Run(policy, fault, Walk(ChildOf(p, cs[0].name), cs[0].node), st);
         if o1.thrown.Some? then o1 else Run(policy, fault, WalkChildren(p, cs[1..]), o1.state)
  {
    var first, rest := Walk(ChildOf(p, cs[0].name), cs[0].node), WalkChildren(p, cs[1..]);
    var w := WalkChildren(p, cs);
    assert w == first + rest;
    assert AcceptsAll(policy, first) by {
      forall k | 0 <= k < |first| ensures Accepts(policy, first[k]) {
        assert first[k] == w[k];
      }
    }
    assert AcceptsAll(policy, rest) by {
      forall k | 0 <= k < |rest| ensures Accepts(policy, rest[k]) {
        assert rest[k] == w[|first| + k];
      }
    }
    RunAppend(policy, fault, first, rest, st);
  }

  /** The visitor object handed to walkFileTree. */
  datatype Visitor =
    | FailFastCopy(failFastCopy: Copy.FailFastCopyVisitor)
    | KeepGoingCopy(keepGoingCopy: Copy.KeepGoingCopyVisitor)
    | FailFastDeletion(failFastDeletion: Deletion.FailFastDeletionVisitor)
    | KeepGoingDeletion(keepGoingDeletion: Deletion.KeepGoingDeletionVisitor)

  function PolicyOf(v: Visitor): Policy {
    match v
    case FailFastCopy(c) => CopyFailFast(c.src, c.dst)
    case KeepGoingCopy(c) => CopyKeepGoing(c.src, c.dst)
    case FailFastDeletion(_) => DeleteFailFast
    case KeepGoingDeletion(_) => DeleteKeepGoing
  }

  /** The objects a visitor's hooks may change, besides the storage. */
  function Footprint(v: Visitor): set<object> {
    match v
    case FailFastCopy(c) => {c}
    case KeepGoingCopy(c) => {c, c.exception}
    case FailFastDeletion(_) => {}
    case KeepGoingDeletion(d) => {d.exception}
  }

  ghost function Observe(v: Visitor, storage: Storage): State
    reads Footprint(v), storage
  {
    match v
    case FailFastCopy(c) => c.Observe(storage)
    case KeepGoingCopy(c) => c.Observe(storage)
    case FailFastDeletion(d) => d.Observe(storage)
    case KeepGoingDeletion(d) => d.Observe(storage)
  }

  /** Calls the visitor's hook for one event. */
  method Dispatch(v: Visitor, e: Event, storage: Storage) returns (thrown: Option<Failure>)
    requires Accepts(PolicyOf(v), e)
    modifies Footprint(v), storage
    ensures Outcome(thrown, Observe(v, storage)) == Hook(PolicyOf(v), storage.fault, e, old(Observe(v, storage)))
    ensures storage.permissions == old(storage.permissions)
  {
    match v
    case FailFastCopy(c) =>
      match e {
        case PreVisit(dir) => thrown := c.PreVisitDirectory(dir, storage);
        case VisitFile(file, regular) => thrown := c.VisitFile(file, regular, storage);
        case VisitFileFailed(file, exc) => thrown := c.VisitFileFailed(file, exc);
        case PostVisit(dir, exc) => thrown := c.PostVisitDirectory(dir, exc);
      }
    case KeepGoingCopy(c) =>
      match e {
        case PreVisit(dir) => thrown := c.PreVisitDirectory(dir, storage);
        case VisitFile(file, regular) => thrown := c.VisitFile(file, regular, storage);
        case VisitFileFailed(file, exc) => thrown := c.VisitFileFailed(file, exc);
        case PostVisit(dir, exc) => thrown := c.PostVisitDirectory(dir, exc);
      }
    case FailFastDeletion(d) =>
      match e {
        case PreVisit(dir) => thrown := d.PreVisitDirectory(dir);
        case VisitFile(file, _) => thrown := d.VisitFile(file, storage);
        case VisitFileFailed(file, exc) => thrown := d.VisitFileFailed(file, exc);
        case PostVisit(dir, exc) => thrown := d.PostVisitDirectory(dir, exc, storage);
      }
    case KeepGoingDeletion(d) =>
      match e {
        case PreVisit(dir) => thrown := d.PreVisitDirectory(dir);
        case VisitFile(file, _) => thrown := d.VisitFile(file, storage);
        case VisitFileFailed(file, exc) => thrown := d.VisitFileFailed(file, exc);
        case PostVisit(dir, exc) => thrown := d.PostVisitDirectory(dir, exc, storage);
      }
  }

  /** Files.walkFileTree(start, visitor) over the snapshot `node` of the tree
      at `start`: the hooks are called in walk order, and the first exception
      a hook throws stops the walk and is thrown. */
  method WalkFileTree(start: Path, node: Node, v: Visitor, storage: Storage) returns (thrown: Option<Failure>)
    requires AcceptsAll(PolicyOf(v), Walk(start, node))
    modifies Footprint(v), storage
    ensures Outcome(thrown, Observe(v, storage)) == Run(PolicyOf(v), storage.fault, Walk(start, node), old(Observe(v, storage)))
    ensures storage.permissions == old(storage.permissions)
  {
    var events := Walk(start, node);
    ghost var st0 := Observe(v, storage);
    var k := 0;
    while k < |events|
      invariant 0 <= k <= |events|
      invariant AcceptsAll(PolicyOf(v), events[..k])
      invariant Outcome(None, Observe(v, storage)) == Run(PolicyOf(v), storage.fault, events[..k], st0)
      invariant storage.permissions == old(storage.permissions)
    {
      RunStep(PolicyOf(v), storage.fault, events, k, st0);
      var t := Dispatch(v, events[k], storage);
      if t.Some? {
        ThrownEndsWalk(PolicyOf(v), storage.fault, events, k + 1, st0);
        return t;
      }
      k := k + 1;
    }
    assert events[..k] == events;
    thrown := None;
  }
}
