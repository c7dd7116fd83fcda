/** What distinguishes the fail-fast and keep-going policies over a whole
    walk (RecursionMode.FAIL_FAST and KEEP_GOING).

    Over any sequence of hook calls, the fail-fast copy stops at the first
    IOException and throws it; the keep-going copy records that same
    exception first in its list, and until then the two have done exactly
    the same. The deletion visitors agree in the same way as long as no
    listing breaks off, where they part: the fail-fast visitor deletes the
    directory anyway.
 */
module Policies {
  import opened Wrappers
  import opened Nio
  import opened FileWalk
  import opened Walker

  /** The fail-fast copy throws exactly when the keep-going copy collects an
      exception or throws; what it throws is the first exception the
      keep-going copy collects, or, if there is none, what the keep-going
      copy throws. Without an exception both leave the same state. */
  lemma {:induction false} CopyPoliciesAgree(src: Path, dst: Path, fault: Path -> Option<IOError>, events: seq<Event>, st: State)
    requires forall k :: 0 <= k < |events| ==> Under(EventPath(events[k]), src)
    requires st.suppressed == []
    ensures AcceptsAll(CopyFailFast(src, dst), events) && AcceptsAll(CopyKeepGoing(src, dst), events)
    ensures var ff := Run(CopyFailFast(src, dst), fault, events, st);
      var kg := Run(CopyKeepGoing(src, dst), fault, events, st);
      ff.state.suppressed == []
      && (ff.thrown.None? <==> kg.thrown.None? && kg.state.suppressed == [])
      && (ff.thrown.None? ==> ff.state == kg.state)
      && (ff.thrown.Some? ==> ff.thrown == if kg.state.suppressed != [] then Some(IO(kg.state.suppressed[0])) else kg.thrown)
    decreases |events|
  {
    if events != [] {
      var n := |events| - 1;
      var init := events[..n];
      CopyPoliciesAgree(src, dst, fault, init, st);
      var ff' := Run(CopyFailFast(src, dst), fault, init, st);
      var kg' := Run(CopyKeepGoing(src, dst), fault, init, st);
      if ff'.thrown.None? {
        assert kg'.state == ff'.state;
      } else if kg'.thrown.None? {
        var kg := Run(CopyKeepGoing(src, dst), fault, events, st);
        assert kg.state.suppressed[0] == kg'.state.suppressed[0];
      }
    }
  }

  /** No directory listing in the walk broke off. */
  predicate ListingsComplete(events: seq<Event>) {
    forall k :: 0 <= k < |events| ==> !(events[k].PostVisit? && events[k].listingError.Some?)
  }

  /** As long as every listing completes, the deletion policies agree as the
      copy policies do. */
  lemma {:induction false} DeletionPoliciesAgree(fault: Path -> Option<IOError>, events: seq<Event>, st: State)
    requires ListingsComplete(events)
    requires st.suppressed == []
    ensures var ff := Run(DeleteFailFast, fault, events, st);
      var kg := Run(DeleteKeepGoing, fault, events, st);
      ff.state.suppressed == [] && kg.thrown.None?
      && (ff.thrown.None? <==> kg.state.suppressed == [])
      && (ff.thrown.None? ==> ff.state == kg.state)
      && (ff.thrown.Some? ==> ff.thrown == Some(IO(kg.state.suppressed[0])))
    decreases |events|
  {
    if events != [] {
      var n := |events| - 1;
      var init := events[..n];
      assert ListingsComplete(init) by {
        forall k | 0 <= k < |init| ensures !(init[k].PostVisit? && init[k].listingError.Some?) {
          assert init[k] == events[k];
        }
      }
      DeletionPoliciesAgree(fault, init, st);
      var ff' := Run(DeleteFailFast, fault, init, st);
      var kg' := Run(DeleteKeepGoing, fault, init, st);
      assert !(events[n].PostVisit? && events[n].listingError.Some?);
      if ff'.thrown.None? {
        assert kg'.state == ff'.state;
      } else {
        var kg := Run(DeleteKeepGoing, fault, events, st);
        assert kg.state.suppressed[0] == kg'.state.suppressed[0];
      }
    }
  }

  /** A keep-going deletion never throws, and the exceptions it has
      collected are never lost. */
  lemma {:induction false} KeepGoingDeletionCompletes(fault: Path -> Option<IOError>, events: seq<Event>, st: State)
    ensures var kg := Run(DeleteKeepGoing, fault, events, st);
      kg.thrown.None? && st.suppressed <= kg.state.suppressed
    decreases |events|
  {
    if events != [] {
      var n := |events| - 1;
      KeepGoingDeletionCompletes(fault, events[..n], st);
      var kg' := Run(DeleteKeepGoing, fault, events[..n], st);
      Deletion.KeepGoingNeverThrows(fault, events[n], kg'.state);
    }
  }

  /** The keep-going copy throws nothing but the UnsupportedOperationException
      of an entry that is not a regular file, and never loses an exception
      it has collected. */
  lemma {:induction false} KeepGoingCopyThrowsOnlyUnsupported(src: Path, dst: Path, fault: Path -> Option<IOError>, events: seq<Event>, st: State)
    requires forall k :: 0 <= k < |events| ==> Under(EventPath(events[k]), src)
    ensures AcceptsAll(CopyKeepGoing(src, dst), events)
    ensures var kg := Run(CopyKeepGoing(src, dst), fault, events, st);
      (kg.thrown.None? || kg.thrown == Some(UnsupportedOperation))
      && (kg.thrown.Some? ==> exists k :: 0 <= k < |events| && events[k].VisitFile? && !events[k].regular)
      && st.suppressed <= kg.state.suppressed
    decreases |events|
  {
    if events != [] {
      var n := |events| - 1;
      KeepGoingCopyThrowsOnlyUnsupported(src, dst, fault, events[..n], st);
      var kg' := Run(CopyKeepGoing(src, dst), fault, events[..n], st);
      if kg'.thrown.Some? {
        var k :| 0 <= k < n && events[..n][k].VisitFile? && !events[..n][k].regular;
        assert events[k] == events[..n][k];
      }
    }
  }
}
