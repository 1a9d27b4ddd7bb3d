/** Whole retention events and sweeps: they leave every scope they touch at rest, and a second one deletes
    nothing more. */
module RetentionEvents {
  import opened Common
  import opened ArchiveNames
  import opened Retention
  import opened Collector

  /** Files that are all among the given ones, unchanged. */
  predicate Within(smaller: Files, files: Files) {
    forall n :: n in smaller ==> n in files && smaller[n] == files[n]
  }

  /** A pass over at most these names has nothing to delete. */
  predicate Rests(files: Files, keep: set<string>, p: Policy, names: seq<string>) {
    && (forall n :: n in names ==> !Oversize(files, keep, p, n))
    && (|| (|names| <= p.maxCheckpoints && TotalSize(files, names) <= p.maxTotalSize)
        || forall n :: n in names ==> n in keep)
  }

  lemma {:induction false} TotalShrinks(smaller: Files, files: Files, names: seq<string>)
    requires Within(smaller, files)
    ensures TotalSize(smaller, names) <= TotalSize(files, names)
  {
    if names != [] { TotalShrinks(smaller, files, names[..|names| - 1]); }
  }

  lemma RestsOnLess(files: Files, keep: set<string>, p: Policy, names: seq<string>, smaller: Files, fewer: seq<string>)
    requires Rests(files, keep, p, names) && Within(smaller, files)
    requires NoDuplicates(names) && NoDuplicates(fewer) && forall n :: n in fewer ==> n in names
    ensures Rests(smaller, keep, p, fewer)
  {
    TotalShrinks(smaller, files, names);
    TotalOfSubset(smaller, fewer, names);
  }

  lemma RestIsIdle(files: Files, keep: set<string>, p: Policy, listing: seq<string>, after: Files)
    requires Rests(files, keep, p, listing) && PassOutcome(files, keep, p, listing, after)
    ensures after == files
  {
    var order, k :| DeletionOrder(files, keep, p, listing, order) && IsCut(files, keep, p, listing, order, k) &&
                    after == Survivors(files, keep, p, listing, order, k);
    NothingToCut(files, keep, p, listing, order, k);
    assert OversizeIn(files, keep, p, listing) == {};
    assert Elements(order[..k]) == {};
  }

  /** A pass at this level would find nothing to do: its scope is among names that rest. */
  ghost predicate LevelRests(files: Files, keep: set<string>, snap: PolicySnapshot, level: Level, details: Details,
                             p: Policy, cluster: ClusterLookup)
  {
    if !Positive(p) then true
    else if !p.retainOrphan && !cluster.Exists? then
      forall n :: InScope(files, snap, level, details, n) ==> n in keep
    else exists names :: Covers(files, snap, level, details, names) && Rests(files, keep, p, names)
  }

  predicate Covers(files: Files, snap: PolicySnapshot, level: Level, details: Details, names: seq<string>) {
    NoDuplicates(names) && forall n :: n in files && InScope(files, snap, level, details, n) ==> n in names
  }

  lemma ScopeShrinks(files: Files, smaller: Files, snap: PolicySnapshot, level: Level, details: Details, n: string)
    requires Within(smaller, files) && InScope(smaller, snap, level, details, n)
    ensures InScope(files, snap, level, details, n)
  {
  }

  lemma PassRests(files: Files, keep: set<string>, snap: PolicySnapshot, level: Level, details: Details, p: Policy,
                  listing: seq<string>, after: Files)
    requires ListsScope(files, snap, level, details, listing) && PassOutcome(files, keep, p, listing, after)
    ensures Covers(after, snap, level, details, Relist(after, listing)) && Rests(after, keep, p, Relist(after, listing))
    ensures Within(after, files)
  {
    PassSafety(files, keep, p, listing, after);
    PassReachesLimits(files, keep, p, listing, after);
    NextNotOversize(files, keep, p, listing, after);
    RelistExact(after, listing);
    forall n | n in after && InScope(after, snap, level, details, n) ensures n in Relist(after, listing) {
      ScopeShrinks(files, after, snap, level, details, n);
    }
  }

  lemma LevelComesToRest(files: Files, keep: set<string>, snap: PolicySnapshot, level: Level, details: Details,
                         p: Policy, cluster: ClusterLookup, after: Files)
    requires LevelOutcome(files, keep, snap, level, details, p, cluster, after)
    ensures LevelRests(after, keep, snap, level, details, p, cluster) && Within(after, files)
  {
    if Positive(p) {
      if !p.retainOrphan && !cluster.Exists? {
        forall n | InScope(after, snap, level, details, n) ensures n in keep {
          ScopeShrinks(files, after, snap, level, details, n);
        }
      } else {
        var listing :| ListsScope(files, snap, level, details, listing) && PassOutcome(files, keep, p, listing, after);
        PassRests(files, keep, snap, level, details, p, listing, after);
      }
    }
  }

  /** Rest is not disturbed by deletions at other levels. */
  lemma LevelStaysAtRest(files: Files, keep: set<string>, snap: PolicySnapshot, level: Level, details: Details,
                         p: Policy, cluster: ClusterLookup, smaller: Files)
    requires LevelRests(files, keep, snap, level, details, p, cluster) && Within(smaller, files)
    ensures LevelRests(smaller, keep, snap, level, details, p, cluster)
  {
    if Positive(p) {
      forall n | InScope(smaller, snap, level, details, n) ensures InScope(files, snap, level, details, n) {
        ScopeShrinks(files, smaller, snap, level, details, n);
      }
      if p.retainOrphan || cluster.Exists? {
        var names :| Covers(files, snap, level, details, names) && Rests(files, keep, p, names);
        RestsOnLess(files, keep, p, names, smaller, names);
        assert Covers(smaller, snap, level, details, names);
      }
    }
  }

  lemma RestingLevelIsIdle(files: Files, keep: set<string>, snap: PolicySnapshot, level: Level, details: Details,
                           p: Policy, cluster: ClusterLookup, after: Files)
    requires LevelRests(files, keep, snap, level, details, p, cluster)
    requires LevelOutcome(files, keep, snap, level, details, p, cluster, after)
    ensures after == files
  {
    if Positive(p) && (p.retainOrphan || cluster.Exists?) {
      var names :| Covers(files, snap, level, details, names) && Rests(files, keep, p, names);
      var listing :| ListsScope(files, snap, level, details, listing) && PassOutcome(files, keep, p, listing, after);
      RestsOnLess(files, keep, p, names, files, listing);
      RestIsIdle(files, keep, p, listing, after);
    }
  }

  /** A second pass at the same level is idle, however its listing is ordered. */
  lemma LevelIdempotent(files: Files, keep: set<string>, snap: PolicySnapshot, level: Level, details: Details,
                        p: Policy, cluster: ClusterLookup, after: Files, again: Files)
    requires LevelOutcome(files, keep, snap, level, details, p, cluster, after)
    requires LevelOutcome(after, keep, snap, level, details, p, cluster, again)
    ensures again == after
  {
    LevelComesToRest(files, keep, snap, level, details, p, cluster, after);
    RestingLevelIsIdle(after, keep, snap, level, details, p, cluster, again);
  }

  // ---------- events ----------

  ghost predicate GlobalRests(files: Files, keep: set<string>, snap: PolicySnapshot, details: Details,
                              cluster: Level -> ClusterLookup)
  {
    && LevelRests(files, keep, snap, ContainerLevel, details, snap.globalContainer, cluster(ContainerLevel))
    && LevelRests(files, keep, snap, PodLevel, details, snap.globalPod, cluster(PodLevel))
    && LevelRests(files, keep, snap, NamespaceLevel, details, snap.globalNamespace, cluster(NamespaceLevel))
  }

  /** An event for these details would find nothing to do at any of its levels. */
  ghost predicate EventRests(files: Files, keep: set<string>, snap: PolicySnapshot, details: Details,
                             cluster: Level -> ClusterLookup)
  {
    match Governing(snap, details)
    case ContainerEntry(i) =>
      LevelRests(files, keep, snap, ContainerLevel, details, Effective(snap.containers[i].limits), cluster(ContainerLevel))
    case PodEntry(j) => LevelRests(files, keep, snap, PodLevel, details, Effective(snap.pods[j].limits), cluster(PodLevel))
    case NamespaceEntry(k) =>
      LevelRests(files, keep, snap, NamespaceLevel, details, Effective(snap.namespaces[k].limits), cluster(NamespaceLevel))
    case GlobalEntry => GlobalRests(files, keep, snap, details, cluster)
  }

  lemma GlobalComesToRest(files: Files, keep: set<string>, snap: PolicySnapshot, details: Details,
                          cluster: Level -> ClusterLookup, after: Files)
    requires GlobalOutcome(files, keep, snap, details, cluster, after)
    ensures GlobalRests(after, keep, snap, details, cluster) && Within(after, files)
  {
    var mid1, mid2 :|
      && LevelOutcome(files, keep, snap, ContainerLevel, details, snap.globalContainer, cluster(ContainerLevel), mid1)
      && LevelOutcome(mid1, keep, snap, PodLevel, details, snap.globalPod, cluster(PodLevel), mid2)
      && LevelOutcome(mid2, keep, snap, NamespaceLevel, details, snap.globalNamespace, cluster(NamespaceLevel), after);
    LevelComesToRest(files, keep, snap, ContainerLevel, details, snap.globalContainer, cluster(ContainerLevel), mid1);
    LevelComesToRest(mid1, keep, snap, PodLevel, details, snap.globalPod, cluster(PodLevel), mid2);
    LevelComesToRest(mid2, keep, snap, NamespaceLevel, details, snap.globalNamespace, cluster(NamespaceLevel), after);
    LevelStaysAtRest(mid1, keep, snap, ContainerLevel, details, snap.globalContainer, cluster(ContainerLevel), after);
    LevelStaysAtRest(mid2, keep, snap, PodLevel, details, snap.globalPod, cluster(PodLevel), after);
  }

  lemma EventComesToRest(files: Files, keep: set<string>, snap: PolicySnapshot, details: Details,
                         cluster: Level -> ClusterLookup, after: Files)
    requires ApplyOutcome(files, keep, snap, details, cluster, after)
    ensures EventRests(after, keep, snap, details, cluster) && Within(after, files)
  {
    match Governing(snap, details)
    case ContainerEntry(i) =>
      LevelComesToRest(files, keep, snap, ContainerLevel, details, Effective(snap.containers[i].limits),
                       cluster(ContainerLevel), after);
    case PodEntry(j) =>
      LevelComesToRest(files, keep, snap, PodLevel, details, Effective(snap.pods[j].limits), cluster(PodLevel), after);
    case NamespaceEntry(k) =>
      LevelComesToRest(files, keep, snap, NamespaceLevel, details, Effective(snap.namespaces[k].limits),
                       cluster(NamespaceLevel), after);
    case GlobalEntry => GlobalComesToRest(files, keep, snap, details, cluster, after);
  }

  /** Rest is not disturbed by deletions of other events. */
  lemma EventStaysAtRest(files: Files, keep: set<string>, snap: PolicySnapshot, details: Details,
                         cluster: Level -> ClusterLookup, smaller: Files)
    requires EventRests(files, keep, snap, details, cluster) && Within(smaller, files)
    ensures EventRests(smaller, keep, snap, details, cluster)
  {
    match Governing(snap, details)
    case ContainerEntry(i) =>
      LevelStaysAtRest(files, keep, snap, ContainerLevel, details, Effective(snap.containers[i].limits),
                       cluster(ContainerLevel), smaller);
    case PodEntry(j) =>
      LevelStaysAtRest(files, keep, snap, PodLevel, details, Effective(snap.pods[j].limits), cluster(PodLevel), smaller);
    case NamespaceEntry(k) =>
      LevelStaysAtRest(files, keep, snap, NamespaceLevel, details, Effective(snap.namespaces[k].limits),
                       cluster(NamespaceLevel), smaller);
    case GlobalEntry =>
      LevelStaysAtRest(files, keep, snap, ContainerLevel, details, snap.globalContainer, cluster(ContainerLevel), smaller);
      LevelStaysAtRest(files, keep, snap, PodLevel, details, snap.globalPod, cluster(PodLevel), smaller);
      LevelStaysAtRest(files, keep, snap, NamespaceLevel, details, snap.globalNamespace, cluster(NamespaceLevel), smaller);
  }

  lemma RestingGlobalIsIdle(files: Files, keep: set<string>, snap: PolicySnapshot, details: Details,
                            cluster: Level -> ClusterLookup, after: Files)
    requires GlobalRests(files, keep, snap, details, cluster) && GlobalOutcome(files, keep, snap, details, cluster, after)
    ensures after == files
  {
    var mid1, mid2 :|
      && LevelOutcome(files, keep, snap, ContainerLevel, details, snap.globalContainer, cluster(ContainerLevel), mid1)
      && LevelOutcome(mid1, keep, snap, PodLevel, details, snap.globalPod, cluster(PodLevel), mid2)
      && LevelOutcome(mid2, keep, snap, NamespaceLevel, details, snap.globalNamespace, cluster(NamespaceLevel), after);
    RestingLevelIsIdle(files, keep, snap, ContainerLevel, details, snap.globalContainer, cluster(ContainerLevel), mid1);
    RestingLevelIsIdle(files, keep, snap, PodLevel, details, snap.globalPod, cluster(PodLevel), mid2);
    RestingLevelIsIdle(files, keep, snap, NamespaceLevel, details, snap.globalNamespace, cluster(NamespaceLevel), after);
  }

  lemma RestingEventIsIdle(files: Files, keep: set<string>, snap: PolicySnapshot, details: Details,
                           cluster: Level -> ClusterLookup, after: Files)
    requires EventRests(files, keep, snap, details, cluster) && ApplyOutcome(files, keep, snap, details, cluster, after)
    ensures after == files
  {
    match Governing(snap, details)
    case ContainerEntry(i) =>
      RestingLevelIsIdle(files, keep, snap, ContainerLevel, details, Effective(snap.containers[i].limits),
                         cluster(ContainerLevel), after);
    case PodEntry(j) =>
      RestingLevelIsIdle(files, keep, snap, PodLevel, details, Effective(snap.pods[j].limits), cluster(PodLevel), after);
    case NamespaceEntry(k) =>
      RestingLevelIsIdle(files, keep, snap, NamespaceLevel, details, Effective(snap.namespaces[k].limits),
                         cluster(NamespaceLevel), after);
    case GlobalEntry => RestingGlobalIsIdle(files, keep, snap, details, cluster, after);
  }

  /** A retention event is idempotent: repeated with the same answers of the cluster, in whatever order
      its passes list and sort the archives, it deletes nothing more. */
  lemma EventIdempotent(files: Files, keep: set<string>, snap: PolicySnapshot, details: Details,
                        cluster: Level -> ClusterLookup, after: Files, again: Files)
    requires ApplyOutcome(files, keep, snap, details, cluster, after)
    requires ApplyOutcome(after, keep, snap, details, cluster, again)
    ensures again == after
  {
    EventComesToRest(files, keep, snap, details, cluster, after);
    RestingEventIsIdle(after, keep, snap, details, cluster, again);
  }

  // ---------- sweeps ----------

  /** Every event of these details would find nothing to do. */
  ghost predicate AllRest(files: Files, keep: set<string>, snap: PolicySnapshot,
                          cluster: Details -> (Level -> ClusterLookup), order: seq<Details>)
  {
    forall d :: d in order ==> EventRests(files, keep, snap, d, cluster(d))
  }

  lemma {:induction false} SweepComesToRest(files: Files, keep: set<string>, snap: PolicySnapshot,
                                            cluster: Details -> (Level -> ClusterLookup), order: seq<Details>, after: Files)
    requires SweepOutcome(files, keep, snap, cluster, order, after)
    ensures AllRest(after, keep, snap, cluster, order) && Within(after, files)
  {
    if order != [] {
      var n := |order| - 1;
      var mid :| SweepOutcome(files, keep, snap, cluster, order[..n], mid) &&
                 ApplyOutcome(mid, keep, snap, order[n], cluster(order[n]), after);
      SweepComesToRest(files, keep, snap, cluster, order[..n], mid);
      EventComesToRest(mid, keep, snap, order[n], cluster(order[n]), after);
      forall d | d in order ensures EventRests(after, keep, snap, d, cluster(d)) {
        if d != order[n] {
          assert d in order[..n];
          EventStaysAtRest(mid, keep, snap, d, cluster(d), after);
        }
      }
    }
  }

  lemma {:induction false} RestingSweepIsIdle(files: Files, keep: set<string>, snap: PolicySnapshot,
                                              cluster: Details -> (Level -> ClusterLookup), order: seq<Details>, after: Files)
    requires AllRest(files, keep, snap, cluster, order) && SweepOutcome(files, keep, snap, cluster, order, after)
    ensures after == files
  {
    if order != [] {
      var n := |order| - 1;
      var mid :| SweepOutcome(files, keep, snap, cluster, order[..n], mid) &&
                 ApplyOutcome(mid, keep, snap, order[n], cluster(order[n]), after);
      RestingSweepIsIdle(files, keep, snap, cluster, order[..n], mid);
      RestingEventIsIdle(files, keep, snap, order[n], cluster(order[n]), after);
    }
  }

  /** A sweep over the categories of the directory, in any order, leaves the event of every remaining
      archive at rest. */
  lemma SweepLeavesRest(files: Files, keep: set<string>, snap: PolicySnapshot,
                        cluster: Details -> (Level -> ClusterLookup), order: seq<Details>, after: Files, d: Details)
    requires (forall x :: x in order <==> x in Categories(files)) && SweepOutcome(files, keep, snap, cluster, order, after)
    requires d in Categories(after)
    ensures EventRests(after, keep, snap, d, cluster(d))
  {
    SweepComesToRest(files, keep, snap, cluster, order, after);
    CategoriesShrink(after, files, d);
  }

  lemma CategoriesShrink(smaller: Files, files: Files, d: Details)
    requires Within(smaller, files) && d in Categories(smaller)
    ensures d in Categories(files)
  {
    var n :| n in smaller && Matches(SweepPattern(), n) && smaller[n].identity.Some? && smaller[n].identity.value == d;
    assert files[n] == smaller[n];
  }

  /** A second sweep, in any other order, deletes nothing. */
  lemma SweepIdempotent(files: Files, keep: set<string>, snap: PolicySnapshot,
                        cluster: Details -> (Level -> ClusterLookup), order: seq<Details>, after: Files,
                        other: seq<Details>, again: Files)
    requires (forall x :: x in order <==> x in Categories(files)) && SweepOutcome(files, keep, snap, cluster, order, after)
    requires (forall x :: x in other <==> x in Categories(after)) && SweepOutcome(after, keep, snap, cluster, other, again)
    ensures again == after
  {
    forall d | d in other ensures EventRests(after, keep, snap, d, cluster(d)) {
      SweepLeavesRest(files, keep, snap, cluster, order, after, d);
    }
    RestingSweepIsIdle(after, keep, snap, cluster, other, again);
  }

  // ---------- what a level enforces ----------

  /** A policy with a limit that is not positive is not enforced at all. */
  lemma UnsetLimitDoesNothing(files: Files, keep: set<string>, snap: PolicySnapshot, level: Level, details: Details,
                              p: Policy, cluster: ClusterLookup, after: Files)
    requires LevelOutcome(files, keep, snap, level, details, p, cluster, after)
    requires p.maxCheckpoints <= 0 || p.maxCheckpointSize <= 0 || p.maxTotalSize <= 0
    ensures after == files
  {}

  /** With positive limits, when orphans are not retained and the cluster does not answer that the object
      exists, exactly the unpinned archives of the scope go. */
  lemma OrphansGo(files: Files, keep: set<string>, snap: PolicySnapshot, level: Level, details: Details,
                  p: Policy, cluster: ClusterLookup, after: Files, n: string)
    requires LevelOutcome(files, keep, snap, level, details, p, cluster, after)
    requires p.maxCheckpoints >= 1 && p.maxCheckpointSize >= 1 && p.maxTotalSize >= 1
    requires !p.retainOrphan && cluster != Exists && n in files
    ensures n !in after <==> n !in keep && InScope(files, snap, level, details, n)
  {}

  /** Otherwise every positive limit is enforced: however the remaining scope is listed, it is within
      both limits or wholly pinned, and no unpinned archive of it is above the size limit. */
  lemma LimitsEnforced(files: Files, keep: set<string>, snap: PolicySnapshot, level: Level, details: Details,
                       p: Policy, cluster: ClusterLookup, after: Files, listing: seq<string>)
    requires LevelOutcome(files, keep, snap, level, details, p, cluster, after)
    requires p.maxCheckpoints >= 1 && p.maxCheckpointSize >= 1 && p.maxTotalSize >= 1
    requires (p.retainOrphan || cluster == Exists) && ListsScope(after, snap, level, details, listing)
    ensures || (|listing| <= p.maxCheckpoints && TotalSize(after, listing) <= p.maxTotalSize)
            || forall n :: n in listing ==> n in keep
    ensures forall n :: n in listing && n !in keep ==> n in after && after[n].size <= p.maxCheckpointSize
  {
    LevelComesToRest(files, keep, snap, level, details, p, cluster, after);
    var names :| Covers(after, snap, level, details, names) && Rests(after, keep, p, names);
    RestsOnLess(after, keep, p, names, after, listing);
    forall n | n in listing && n !in keep ensures n in after && after[n].size <= p.maxCheckpointSize {
      assert InScope(after, snap, level, details, n) && !Oversize(after, keep, p, n);
    }
  }

  /** And nothing is deleted without need: a scope within all limits is left alone. */
  lemma WithinLimitsSpared(files: Files, keep: set<string>, snap: PolicySnapshot, level: Level, details: Details,
                           p: Policy, cluster: ClusterLookup, after: Files, listing: seq<string>)
    requires LevelOutcome(files, keep, snap, level, details, p, cluster, after)
    requires (p.retainOrphan || cluster == Exists) && ListsScope(files, snap, level, details, listing)
    requires |listing| <= p.maxCheckpoints && TotalSize(files, listing) <= p.maxTotalSize
    requires forall n :: n in listing && n in files && n !in keep ==> files[n].size <= p.maxCheckpointSize
    ensures after == files
  {
    if Positive(p) {
      var other :| ListsScope(files, snap, level, details, other) && PassOutcome(files, keep, p, other, after);
      assert Rests(files, keep, p, listing);
      RestsOnLess(files, keep, p, listing, files, other);
      RestIsIdle(files, keep, p, other, after);
    }
  }

  /** An entry that sets nothing keeps everything of a scope below the infinite values: 2^31 - 1
      archives, and 2^60 bytes for each and for all of them. */
  lemma BareEntryKeepsAll(files: Files, keep: set<string>, snap: PolicySnapshot, level: Level, details: Details,
                          cluster: ClusterLookup, after: Files, listing: seq<string>)
    requires LevelOutcome(files, keep, snap, level, details, Effective(Limits(None, None, None, None)), cluster, after)
    requires ListsScope(files, snap, level, details, listing)
    requires |listing| <= 2147483647 && TotalSize(files, listing) <= 1152921504606846976
    requires forall n :: n in listing && n in files ==> files[n].size <= 1152921504606846976
    ensures after == files
  {
    WithinLimitsSpared(files, keep, snap, level, details, Effective(Limits(None, None, None, None)), cluster, after, listing);
  }

  /** A limit that is set is the one in force; one that is not, is infinite, and orphans stay. */
  lemma SetLimitsCount(l: Limits)
    ensures Effective(l).retainOrphan <==> l.retainOrphan != Some(false)
    ensures Effective(l).maxCheckpoints == match l.maxCheckpoints case Some(m) => m case None => 2147483647
    ensures Effective(l).maxCheckpointSize == match l.maxCheckpointSize case Some(m) => m case None => 1152921504606846976
    ensures Effective(l).maxTotalSize == match l.maxTotalSize case Some(m) => m case None => 1152921504606846976
  {}
}
