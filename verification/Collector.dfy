/** The retention collector of one checkpoint directory: the policy lookup, the scope of a pass and
    its three deletion phases, as they change the directory step by step. */
module Collector {
  import opened Common
  import opened ArchiveNames
  import opened Retention

  datatype SelectBy = ByCount | BySize

  /** Go's map lookup: a missing key reads as zero. */
  function Lookup(sizes: map<string, nat>, n: string): nat {
    if n in sizes then sizes[n] else 0
  }

  /** Prefix of order whose recorded sizes first add up to excess; at least one element if any. */
  function SizePrefix(order: seq<string>, sizes: map<string, nat>, excess: int): (k: nat)
    ensures k <= |order|
  {
    if order == [] then 0
    else if excess - Lookup(sizes, order[0]) <= 0 then 1
    else 1 + SizePrefix(order[1..], sizes, excess - Lookup(sizes, order[0]))
  }

  // ---------- policies ----------

  datatype Limits = Limits(retainOrphan: Option<bool>, maxCheckpoints: Option<int>,
                           maxCheckpointSize: Option<int>, maxTotalSize: Option<int>)

  datatype ContainerPolicy = ContainerPolicy(ns: string, pod: string, container: string, limits: Limits)
  datatype PodPolicy = PodPolicy(ns: string, pod: string, limits: Limits)
  datatype NamespacePolicy = NamespacePolicy(ns: string, limits: Limits)

  datatype PolicySnapshot = PolicySnapshot(
    containers: seq<ContainerPolicy>, pods: seq<PodPolicy>, namespaces: seq<NamespacePolicy>,
    globalContainer: Policy, globalPod: Policy, globalNamespace: Policy)

  /** One exbibyte, the collector's "no limit" for sizes. */
  const ONE_EI := 1152921504606846976

  /** A missing limit is infinite, a missing retainOrphan is true. */
  function Effective(l: Limits): Policy {
    Policy(if l.retainOrphan.Some? then l.retainOrphan.value else true,
           if l.maxCheckpoints.Some? then l.maxCheckpoints.value else MAX_INT32,
           if l.maxCheckpointSize.Some? then l.maxCheckpointSize.value else ONE_EI,
           if l.maxTotalSize.Some? then l.maxTotalSize.value else ONE_EI)
  }

  predicate ForContainer(p: ContainerPolicy, d: Details) { p.ns == d.ns && p.pod == d.pod && p.container == d.container }
  predicate ForPod(p: PodPolicy, d: Details) { p.ns == d.ns && p.pod == d.pod }
  predicate ForNamespace(p: NamespacePolicy, d: Details) { p.ns == d.ns }

  function FindContainer(ps: seq<ContainerPolicy>, d: Details): (k: nat)
    ensures k <= |ps| && (k < |ps| ==> ForContainer(ps[k], d)) && forall i :: 0 <= i < k ==> !ForContainer(ps[i], d)
  {
    if ps == [] || ForContainer(ps[0], d) then 0 else 1 + FindContainer(ps[1..], d)
  }

  function FindPod(ps: seq<PodPolicy>, d: Details): (k: nat)
    ensures k <= |ps| && (k < |ps| ==> ForPod(ps[k], d)) && forall i :: 0 <= i < k ==> !ForPod(ps[i], d)
  {
    if ps == [] || ForPod(ps[0], d) then 0 else 1 + FindPod(ps[1..], d)
  }

  function FindNamespace(ps: seq<NamespacePolicy>, d: Details): (k: nat)
    ensures k <= |ps| && (k < |ps| ==> ForNamespace(ps[k], d)) && forall i :: 0 <= i < k ==> !ForNamespace(ps[i], d)
  {
    if ps == [] || ForNamespace(ps[0], d) then 0 else 1 + FindNamespace(ps[1..], d)
  }

  /** The entry of the hierarchy that governs a checkpoint. */
  datatype Entry = ContainerEntry(i: nat) | PodEntry(j: nat) | NamespaceEntry(k: nat) | GlobalEntry

  function Governing(snap: PolicySnapshot, d: Details): Entry {
    var i, j, k := FindContainer(snap.containers, d), FindPod(snap.pods, d), FindNamespace(snap.namespaces, d);
    if i < |snap.containers| then ContainerEntry(i)
    else if j < |snap.pods| then PodEntry(j)
    else if k < |snap.namespaces| then NamespaceEntry(k)
    else GlobalEntry
  }

  method FindContainerPolicy(snap: PolicySnapshot, d: Details) returns (found: Option<ContainerPolicy>)
    ensures var i := FindContainer(snap.containers, d);
            found == if i < |snap.containers| then Some(snap.containers[i]) else None
  {
    for i := 0 to |snap.containers|
      invariant forall j :: 0 <= j < i ==> !ForContainer(snap.containers[j], d)
    {
      var policy := snap.containers[i];
      if policy.ns == d.ns && policy.pod == d.pod && policy.container == d.container {
        return Some(policy);
      }
    }
    return None;
  }

  method FindPodPolicy(snap: PolicySnapshot, d: Details) returns (found: Option<PodPolicy>)
    ensures var j := FindPod(snap.pods, d);
            found == if j < |snap.pods| then Some(snap.pods[j]) else None
  {
    for i := 0 to |snap.pods|
      invariant forall j :: 0 <= j < i ==> !ForPod(snap.pods[j], d)
    {
      var policy := snap.pods[i];
      if policy.ns == d.ns && policy.pod == d.pod {
        return Some(policy);
      }
    }
    return None;
  }

  method FindNamespacePolicy(snap: PolicySnapshot, d: Details) returns (found: Option<NamespacePolicy>)
    ensures var k := FindNamespace(snap.namespaces, d);
            found == if k < |snap.namespaces| then Some(snap.namespaces[k]) else None
  {
    for i := 0 to |snap.namespaces|
      invariant forall j :: 0 <= j < i ==> !ForNamespace(snap.namespaces[j], d)
    {
      var policy := snap.namespaces[i];
      if policy.ns == d.ns {
        return Some(policy);
      }
    }
    return None;
  }

  // ---------- the scope of a pass ----------

  datatype Level = ContainerLevel | PodLevel | NamespaceLevel

  function PatternFor(level: Level, d: Details): seq<Glyph> {
    match level
    case ContainerLevel => ContainerPattern(d.pod, d.ns, d.container)
    case PodLevel => PodPattern(d.pod, d.ns)
    case NamespaceLevel => NamespacePattern(d.ns)
  }

  /** Archives with a more specific entry are left to that entry. */
  predicate Excluded(snap: PolicySnapshot, level: Level, d: Details) {
    || (!level.ContainerLevel? && FindContainer(snap.containers, d) < |snap.containers|)
    || (level.NamespaceLevel? && FindPod(snap.pods, d) < |snap.pods|)
  }

  predicate InScope(files: Files, snap: PolicySnapshot, level: Level, details: Details, n: string) {
    n in files && Matches(PatternFor(level, details), n) &&
    files[n].identity.Some? && !Excluded(snap, level, files[n].identity.value)
  }

  /** Answer of the cluster about the scope's object; a failed lookup counts as absent. */
  datatype ClusterLookup = Exists | Absent | LookupFailed

  predicate Positive(p: Policy) {
    p.maxCheckpoints > 0 && p.maxCheckpointSize > 0 && p.maxTotalSize > 0
  }

  predicate ListsScope(files: Files, snap: PolicySnapshot, level: Level, details: Details, listing: seq<string>) {
    && NoDuplicates(listing)
    && (forall n :: n in listing ==> InScope(files, snap, level, details, n))
    && (forall n :: n in files && InScope(files, snap, level, details, n) ==> n in listing)
  }

  /** What one pass at one level may do to the directory. */
  ghost predicate LevelOutcome(files: Files, keep: set<string>, snap: PolicySnapshot, level: Level, details: Details,
                               p: Policy, cluster: ClusterLookup, after: Files)
  {
    if !Positive(p) then after == files
    else if !p.retainOrphan && !cluster.Exists? then
      after == files - (set n | n in files && n !in keep && InScope(files, snap, level, details, n))
    else
      exists listing :: ListsScope(files, snap, level, details, listing) &&
                        PassOutcome(files, keep, p, listing, after)
  }

  /** The three passes of the global policy, container first. */
  ghost predicate GlobalOutcome(files: Files, keep: set<string>, snap: PolicySnapshot, details: Details,
                                cluster: Level -> ClusterLookup, after: Files)
  {
    exists mid1, mid2 ::
      && LevelOutcome(files, keep, snap, ContainerLevel, details, snap.globalContainer, cluster(ContainerLevel), mid1)
      && LevelOutcome(mid1, keep, snap, PodLevel, details, snap.globalPod, cluster(PodLevel), mid2)
      && LevelOutcome(mid2, keep, snap, NamespaceLevel, details, snap.globalNamespace, cluster(NamespaceLevel), after)
  }

  ghost predicate ApplyOutcome(files: Files, keep: set<string>, snap: PolicySnapshot, details: Details,
                               cluster: Level -> ClusterLookup, after: Files)
  {
    match Governing(snap, details)
    case ContainerEntry(i) =>
      LevelOutcome(files, keep, snap, ContainerLevel, details, Effective(snap.containers[i].limits),
                   cluster(ContainerLevel), after)
    case PodEntry(j) =>
      LevelOutcome(files, keep, snap, PodLevel, details, Effective(snap.pods[j].limits), cluster(PodLevel), after)
    case NamespaceEntry(k) =>
      LevelOutcome(files, keep, snap, NamespaceLevel, details, Effective(snap.namespaces[k].limits),
                   cluster(NamespaceLevel), after)
    case GlobalEntry => GlobalOutcome(files, keep, snap, details, cluster, after)
  }

  /** The pattern of a sweep over all checkpoint archives. */
  function SweepPattern(): seq<Glyph> {
    Lits("checkpoint-") + ([Star] + (Lits("_") + ([Star, Lit('-'), Star, Lit('-'), Star] + Lits(".tar"))))
  }

  /** The pods' containers that readable archives of the directory belong to. */
  function Categories(files: Files): set<Details> {
    set n | n in files && Matches(SweepPattern(), n) && files[n].identity.Some? :: files[n].identity.value
  }

  /** One event after the other. */
  ghost predicate SweepOutcome(files: Files, keep: set<string>, snap: PolicySnapshot,
                               cluster: Details -> (Level -> ClusterLookup), order: seq<Details>, after: Files)
  {
    if order == [] then after == files
    else
      var n := |order| - 1;
      exists mid :: SweepOutcome(files, keep, snap, cluster, order[..n], mid) &&
                    ApplyOutcome(mid, keep, snap, order[n], cluster(order[n]), after)
  }

  lemma SweepMore(files: Files, keep: set<string>, snap: PolicySnapshot, cluster: Details -> (Level -> ClusterLookup),
                  order: seq<Details>, mid: Files, details: Details, after: Files)
    requires SweepOutcome(files, keep, snap, cluster, order, mid)
    requires ApplyOutcome(mid, keep, snap, details, cluster(details), after)
    ensures SweepOutcome(files, keep, snap, cluster, order + [details], after)
  {
    assert (order + [details])[..|order|] == order;
  }

  // ---------- phases on values ----------

  /** The selection by size asks for the shortest prefix that covers the excess. */
  lemma {:induction false} SizePrefixIsCut(files: Files, order: seq<string>, sizes: map<string, nat>,
                                           total: int, limit: int, i: nat)
    requires i <= |order| && forall n :: n in order ==> Lookup(sizes, n) == SizeOf(files, n)
    requires forall j :: 0 <= j <= i ==> total - TotalSize(files, order[..j]) > limit
    ensures IsSizeCut(files, order, total, limit,
                      i + SizePrefix(order[i..], sizes, total - limit - TotalSize(files, order[..i])))
    decreases |order| - i
  {
    if i < |order| {
      TotalStep(files, order, i);
      assert order[i..][0] == order[i] && order[i..][1..] == order[i + 1..];
      assert order[i] in order;
      if total - TotalSize(files, order[..i + 1]) > limit {
        SizePrefixIsCut(files, order, sizes, total, limit, i + 1);
      }
    }
  }

  /** One archive more in the accounting. */
  lemma AccountStep(f: Files, keep: set<string>, p: Policy, listing: seq<string>, i: nat)
    requires i < |listing|
    ensures var c, kept := listing[i], Retained(f, keep, p, listing[..i]);
            var kept' := Retained(f, keep, p, listing[..i + 1]);
            && |kept'| == |kept| + (if Oversize(f, keep, p, c) then 0 else 1)
            && TotalSize(f, kept') == TotalSize(f, kept) + (if Oversize(f, keep, p, c) then 0 else SizeOf(f, c))
            && Candidates(f, keep, p, listing[..i + 1]) ==
               Candidates(f, keep, p, listing[..i]) + (if Deletable(f, keep, p, c) then [c] else [])
            && OversizeIn(f, keep, p, listing[..i + 1]) ==
               OversizeIn(f, keep, p, listing[..i]) + (if Oversize(f, keep, p, c) then {c} else {})
  {
    var c, done := listing[i], listing[..i];
    assert listing[..i + 1] == done + [c];
    assert listing[..i + 1][..i] == done;
    var kept := Retained(f, keep, p, done);
    assert (kept + [c])[..|kept|] == kept;
    assert kept + [] == kept;
  }

  lemma MembersAgree(s: seq<string>, t: seq<string>)
    requires multiset(s) == multiset(t)
    ensures forall n :: n in s <==> n in t
  {
    forall n ensures n in s <==> n in t { assert n in multiset(s) <==> n in multiset(t); }
  }

  lemma PermutedNoDuplicates(s: seq<string>, t: seq<string>)
    requires NoDuplicates(s) && multiset(s) == multiset(t)
    ensures NoDuplicates(t)
  {
    forall i, j | 0 <= i < j < |t| ensures t[i] != t[j] {
      if t[i] == t[j] {
        CountTwice(t, i, j);
        MultisetCount(s, t[i]);
        assert false;
      }
    }
  }

  /** The two phases, put together, are the specification. */
  lemma PassAssembled(f: Files, keep: set<string>, p: Policy, listing: seq<string>, f1: Files,
                      order: seq<string>, k1: nat, k2: nat, after: Files)
    requires f1 == f - OversizeIn(f, keep, p, listing)
    requires SortOutcome(f1, Candidates(f, keep, p, listing), order)
    requires var kept := Retained(f, keep, p, listing);
             && k1 == CountCut(|kept|, p.maxCheckpoints, |order|)
             && IsSizeCut(f, order, TotalSize(f, kept), p.maxTotalSize, k2)
    requires after == f1 - Elements(order[..k1]) - Elements(order[..k2])
    ensures PassOutcome(f, keep, p, listing, after)
  {
    CandidatesExact(f, keep, p, listing);
    forall i, j | 0 <= i < j < |order| && order[i] in f && order[j] in f
      ensures f[order[i]].mtime <= f[order[j]].mtime
    {
      MembersAgree(Candidates(f, keep, p, listing), order);
      assert !Inverted(f1, order, i, j);
      assert order[i] in order && order[j] in order;
      assert Deletable(f, keep, p, order[i]) && Deletable(f, keep, p, order[j]);
    }
    PhasesMakeTheCut(f, keep, p, listing, order, k1, k2);
    var k := if k1 <= k2 then k2 else k1;
    PrefixUnion(order, k1, k2);
    assert after == Survivors(f, keep, p, listing, order, k);
  }

  lemma PrefixUnion(order: seq<string>, i: nat, j: nat)
    requires i <= |order| && j <= |order|
    ensures Elements(order[..i]) + Elements(order[..j]) == Elements(order[..if i <= j then j else i])
  {
    var m, k := if i <= j then i else j, if i <= j then j else i;
    assert order[..k] == order[..m] + order[m..k];
  }

  lemma SizeSelection(before: seq<string>, order: seq<string>, recorded: map<string, nat>, total: nat, limit: int,
                      f: Files, toDelete: seq<string>)
    requires NoDuplicates(before) && multiset(before) == multiset(order) && total > limit
    requires forall n :: n in before ==> Lookup(recorded, n) == SizeOf(f, n)
    requires toDelete == order[..SizePrefix(order, recorded, total - limit)]
    ensures IsSizeCut(f, order, total, limit, |toDelete|)
    ensures NoDuplicates(toDelete) && forall n :: n in toDelete ==> n in before
    ensures forall j :: 0 <= j < |toDelete| ==> total - TotalSize(f, toDelete[..j]) > limit
  {
    MembersAgree(before, order);
    PermutedNoDuplicates(before, order);
    assert order[..0] == [] && order[0..] == order;
    SizePrefixIsCut(f, order, recorded, total, limit, 0);
    forall j | 0 <= j < |toDelete| ensures total - TotalSize(f, toDelete[..j]) > limit {
      assert toDelete[..j] == order[..j];
    }
    forall n | n in toDelete ensures n in before { assert n in order; }
  }

  /** What the count phase leaves: the candidate list, sorted if it ran, and the files. */
  predicate CountPhase(f1: Files, found: seq<string>, counter: nat, p: Policy, order: seq<string>, f2: Files) {
    && multiset(found) == multiset(order)
    && if counter > p.maxCheckpoints
       then SortOutcome(f1, found, order) && f2 == f1 - Elements(order[..CountCut(counter, p.maxCheckpoints, |order|)])
       else order == found && f2 == f1
  }

  ghost predicate SizePhase(f: Files, f2: Files, order1: seq<string>, total: nat, p: Policy, order: seq<string>, f3: Files) {
    if total > p.maxTotalSize
    then
      && SortOutcome(f2, order1, order)
      && exists k: nat :: IsSizeCut(f, order, total, p.maxTotalSize, k) && f3 == f2 - Elements(order[..k])
    else order == order1 && f3 == f2
  }

  /** The second sort runs after files of the same list were deleted; it must not disturb the order. */
  lemma CountPhaseAssembled(f: Files, keep: set<string>, p: Policy, listing: seq<string>, f1: Files,
                            order1: seq<string>, f2: Files, order: seq<string>, f3: Files)
    requires Positive(p)
    requires f1 == f - OversizeIn(f, keep, p, listing)
    requires var kept := Retained(f, keep, p, listing);
             && |kept| > p.maxCheckpoints
             && CountPhase(f1, Candidates(f, keep, p, listing), |kept|, p, order1, f2)
             && SizePhase(f, f2, order1, TotalSize(f, kept), p, order, f3)
    ensures PassOutcome(f, keep, p, listing, f3)
  {
    var kept := Retained(f, keep, p, listing);
    var k1 := CountCut(|kept|, p.maxCheckpoints, |order1|);
    CandidatesExact(f, keep, p, listing);
    DeletedPrefixKeepsOrder(f1, order1, Elements(order1[..k1]));
    assert order == order1;
    FinishPass(f, keep, p, listing, f1, order, k1, f3);
  }

  lemma NoPhaseAssembled(f: Files, keep: set<string>, p: Policy, listing: seq<string>, f1: Files, f3: Files)
    requires Positive(p)
    requires f1 == f - OversizeIn(f, keep, p, listing)
    requires |Retained(f, keep, p, listing)| <= p.maxCheckpoints && f3 == f1
    requires TotalSize(f, Retained(f, keep, p, listing)) <= p.maxTotalSize
    ensures PassOutcome(f, keep, p, listing, f3)
  {
    var found := Candidates(f, keep, p, listing);
    CandidatesExact(f, keep, p, listing);
    InsertionSortMeetsContract(f1, found);
    FinishPass(f, keep, p, listing, f1, InsertionSort(f1, found), 0, f3);
  }

  lemma SizePhaseAssembled(f: Files, keep: set<string>, p: Policy, listing: seq<string>, f1: Files,
                           order: seq<string>, f3: Files)
    requires Positive(p)
    requires f1 == f - OversizeIn(f, keep, p, listing)
    requires |Retained(f, keep, p, listing)| <= p.maxCheckpoints
    requires TotalSize(f, Retained(f, keep, p, listing)) > p.maxTotalSize
    requires SizePhase(f, f1, Candidates(f, keep, p, listing), TotalSize(f, Retained(f, keep, p, listing)), p, order, f3)
    ensures PassOutcome(f, keep, p, listing, f3)
  {
    CandidatesExact(f, keep, p, listing);
    assert Elements(order[..0]) == {};
    FinishPass(f, keep, p, listing, f1, order, 0, f3);
  }

  lemma PhasesAssembled(f: Files, keep: set<string>, p: Policy, listing: seq<string>, f1: Files,
                        order1: seq<string>, f2: Files, order: seq<string>, f3: Files)
    requires Positive(p)
    requires f1 == f - OversizeIn(f, keep, p, listing)
    requires var kept := Retained(f, keep, p, listing);
             && CountPhase(f1, Candidates(f, keep, p, listing), |kept|, p, order1, f2)
             && SizePhase(f, f2, order1, TotalSize(f, kept), p, order, f3)
    ensures PassOutcome(f, keep, p, listing, f3)
  {
    var found, kept := Candidates(f, keep, p, listing), Retained(f, keep, p, listing);
    var total := TotalSize(f, kept);
    if |kept| > p.maxCheckpoints {
      CountPhaseAssembled(f, keep, p, listing, f1, order1, f2, order, f3);
    } else if total > p.maxTotalSize {
      SizePhaseAssembled(f, keep, p, listing, f1, order, f3);
    } else {
      NoPhaseAssembled(f, keep, p, listing, f1, f3);
    }
  }

  lemma FinishPass(f: Files, keep: set<string>, p: Policy, listing: seq<string>, f1: Files,
                   order: seq<string>, k1: nat, f3: Files)
    requires f1 == f - OversizeIn(f, keep, p, listing)
    requires SortOutcome(f1, Candidates(f, keep, p, listing), order)
    requires var kept := Retained(f, keep, p, listing);
             var total, f2 := TotalSize(f, kept), f1 - Elements(order[..CountCut(|kept|, p.maxCheckpoints, |order|)]);
             && k1 == CountCut(|kept|, p.maxCheckpoints, |order|)
             && if total > p.maxTotalSize
                then exists k: nat :: IsSizeCut(f, order, total, p.maxTotalSize, k) && f3 == f2 - Elements(order[..k])
                else f3 == f2
    ensures PassOutcome(f, keep, p, listing, f3)
  {
    var total := TotalSize(f, Retained(f, keep, p, listing));
    var k2: nat := 0;
    if total > p.maxTotalSize {
      k2 :| IsSizeCut(f, order, total, p.maxTotalSize, k2) &&
            f3 == f1 - Elements(order[..k1]) - Elements(order[..k2]);
    } else {
      assert order[..0] == [] && Elements(order[..0]) == {};
    }
    PassAssembled(f, keep, p, listing, f1, order, k1, k2, f3);
  }

  lemma ElementsStep(files: Files, s: seq<string>, i: nat)
    requires i < |s|
    ensures files - Elements(s[..i]) - {s[i]} == files - Elements(s[..i + 1])
  {
    assert s[..i + 1] == s[..i] + [s[i]];
    assert Elements(s[..i + 1]) == Elements(s[..i]) + {s[i]};
  }

  class CheckpointDir {
    var files: Files
    /** Names of archives with a .keep marker. The collector never changes markers. */
    const keep: set<string>

    constructor (files: Files, keep: set<string>)
      ensures this.files == files && this.keep == keep
    {
      this.files := files;
      this.keep := keep;
    }

    /** removeArchiveUnlessPinned: removing a file that is already gone only logs an error. */
    method RemoveArchiveUnlessPinned(archive: string)
      modifies `files
      ensures files == if archive in keep then old(files) else old(files) - {archive}
    {
      if archive in keep { return; }
      files := files - {archive};
    }

    /** sort.Slice with the age comparator; callers see the contract only. */
    method SortByAge(archives: array<string>)
      modifies archives
      ensures SortOutcome(files, old(archives[..]), archives[..])
    {
      var sorted := InsertionSort(files, archives[..]);
      InsertionSortMeetsContract(files, archives[..]);
      SameLength(archives[..], sorted);
      forall i | 0 <= i < archives.Length { archives[i] := sorted[i]; }
      assert archives[..] == sorted;
    }

    method SelectArchivesToDelete(archives: array<string>, sizes: map<string, nat>, excess: int, rule: SelectBy)
      returns (toDelete: seq<string>)
      modifies archives
      ensures SortOutcome(files, old(archives[..]), archives[..])
      ensures rule == ByCount ==>
                toDelete == archives[..if excess <= 0 then 0 else if excess <= archives.Length then excess else archives.Length]
      ensures rule == BySize ==> toDelete == archives[..SizePrefix(archives[..], sizes, excess)]
    {
      toDelete := [];
      SortByAge(archives);
      match rule
      case ByCount =>
        var i := 0;
        while i < excess && i < archives.Length
          invariant 0 <= i <= archives.Length && (i <= excess || i == 0)
          invariant toDelete == archives[..i]
        {
          toDelete := toDelete + [archives[i]];
          i := i + 1;
        }
      case BySize =>
        var left, i := excess, 0;
        while i < archives.Length
          invariant 0 <= i <= archives.Length
          invariant toDelete == archives[..i]
          invariant SizePrefix(archives[..], sizes, excess) == i + SizePrefix(archives[i..], sizes, left)
        {
          assert archives[i..][0] == archives[i] && archives[i..][1..] == archives[i + 1..];
          toDelete := toDelete + [archives[i]];
          left := left - Lookup(sizes, archives[i]);
          i := i + 1;
          if left <= 0 { break; }
        }
    }

    /** First loop of a pass: oversize archives go at once, everything else is accounted for. */
    method Account(listing: seq<string>, p: Policy)
      returns (counter: nat, total: nat, sizes: map<string, nat>, candidates: seq<string>)
      requires NoDuplicates(listing)
      modifies `files
      ensures files == old(files) - OversizeIn(old(files), keep, p, listing)
      ensures counter == |Retained(old(files), keep, p, listing)|
      ensures total == TotalSize(old(files), Retained(old(files), keep, p, listing))
      ensures candidates == Candidates(old(files), keep, p, listing)
      ensures forall n :: n in candidates ==> Lookup(sizes, n) == SizeOf(old(files), n)
    {
      counter, total, sizes, candidates := |listing|, 0, map[], [];
      ghost var f := files;
      for i := 0 to |listing|
        invariant files == f - OversizeIn(f, keep, p, listing[..i])
        invariant counter == |listing| - i + |Retained(f, keep, p, listing[..i])|
        invariant total == TotalSize(f, Retained(f, keep, p, listing[..i]))
        invariant candidates == Candidates(f, keep, p, listing[..i])
        invariant forall n :: n in candidates ==> n in sizes && sizes[n] == SizeOf(f, n)
      {
        var c := listing[i];
        AccountStep(f, keep, p, listing, i);
        assert c !in listing[..i];
        if c in files {
          var size := files[c].size;
          if p.maxCheckpointSize < size {
            if c in keep {
              total := total + size;
              sizes := sizes[c := size];
            } else {
              RemoveArchiveUnlessPinned(c);
              counter := counter - 1;
            }
          } else {
            total := total + size;
            sizes := sizes[c := size];
            if c !in keep {
              candidates := candidates + [c];
            }
          }
        }
      }
      assert listing[..|listing|] == listing;
    }

    /** Count phase: the oldest candidates go until the counter is within the limit. */
    method RotateByCount(candidates: array<string>, sizes: map<string, nat>, counter: nat, p: Policy)
      requires counter > p.maxCheckpoints >= 0
      requires forall n :: n in candidates[..] ==> n !in keep
      modifies `files, candidates
      ensures SortOutcome(old(files), old(candidates[..]), candidates[..])
      ensures files == old(files) - Elements(candidates[..CountCut(counter, p.maxCheckpoints, candidates.Length)])
    {
      var toDelete := SelectArchivesToDelete(candidates, sizes, counter - p.maxCheckpoints, ByCount);
      ghost var order, k, before := candidates[..], |toDelete|, files;
      MembersAgree(old(candidates[..]), order);
      var left := counter;
      for i := 0 to |toDelete|
        invariant candidates[..] == order
        invariant left == counter - i && files == before - Elements(order[..i])
      {
        ElementsStep(before, order, i);
        assert toDelete[i] == order[i] && order[i] in order;
        RemoveArchiveUnlessPinned(toDelete[i]);
        left := left - 1;
        if left <= p.maxCheckpoints {
          assert i + 1 == k;
          break;
        }
      }
    }

    /** Deletion loop of the size phase. */
    method RemoveUntilWithin(toDelete: seq<string>, recorded: map<string, nat>, total: nat, limit: int, ghost f: Files)
      requires NoDuplicates(toDelete)
      requires forall n :: n in toDelete ==> n !in keep && Lookup(recorded, n) == SizeOf(f, n)
      requires forall j :: 0 <= j < |toDelete| ==> total - TotalSize(f, toDelete[..j]) > limit
      modifies `files
      ensures files == old(files) - Elements(toDelete)
    {
      var left: int, sizes := total, recorded;
      ghost var before := files;
      for i := 0 to |toDelete|
        invariant files == before - Elements(toDelete[..i])
        invariant left == total - TotalSize(f, toDelete[..i])
        invariant forall j :: i <= j < |toDelete| ==> Lookup(sizes, toDelete[j]) == SizeOf(f, toDelete[j])
      {
        ElementsStep(before, toDelete, i);
        TotalStep(f, toDelete, i);
        assert toDelete[i] in toDelete;
        RemoveArchiveUnlessPinned(toDelete[i]);
        left := left - Lookup(sizes, toDelete[i]);
        sizes := sizes - {toDelete[i]};
        if left <= limit {
          assert toDelete[..i + 1] == toDelete;
          break;
        }
      }
      assert toDelete[..|toDelete|] == toDelete;
    }

    /** Size phase, on the total and the candidate list from before the count phase. */
    method RotateBySize(candidates: array<string>, recorded: map<string, nat>, total: nat, p: Policy, ghost f: Files)
      requires total > p.maxTotalSize
      requires NoDuplicates(candidates[..])
      requires forall n :: n in candidates[..] ==> n !in keep && Lookup(recorded, n) == SizeOf(f, n)
      modifies `files, candidates
      ensures SortOutcome(old(files), old(candidates[..]), candidates[..])
      ensures exists k: nat ::
                && IsSizeCut(f, candidates[..], total, p.maxTotalSize, k)
                && files == old(files) - Elements(candidates[..k])
    {
      var toDelete := SelectArchivesToDelete(candidates, recorded, total - p.maxTotalSize, BySize);
      ghost var order := candidates[..];
      SizeSelection(old(candidates[..]), order, recorded, total, p.maxTotalSize, f, toDelete);
      RemoveUntilWithin(toDelete, recorded, total, p.maxTotalSize, f);
      assert IsSizeCut(f, order, total, p.maxTotalSize, |toDelete|) && order[..|toDelete|] == toDelete;
    }

    /** The limits part of a pass: account, rotate by count, rotate by size. */
    method EnforceLimits(listing: seq<string>, p: Policy)
      requires NoDuplicates(listing) && Positive(p)
      modifies `files
      ensures PassOutcome(old(files), keep, p, listing, files)
    {
      ghost var f := files;
      var counter, total, sizes, found := Account(listing, p);
      CandidatesExact(f, keep, p, listing);
      var candidates := new string[|found|](i requires 0 <= i < |found| => found[i]);
      assert candidates[..] == found;
      ghost var f1 := files;
      if counter > p.maxCheckpoints {
        RotateByCount(candidates, sizes, counter, p);
      }
      ghost var order1, f2 := candidates[..], files;
      assert CountPhase(f1, found, counter, p, order1, f2);
      MembersAgree(found, order1);
      PermutedNoDuplicates(found, order1);
      if total > p.maxTotalSize {
        RotateBySize(candidates, sizes, total, p, f);
      }
      PhasesAssembled(f, keep, p, listing, f1, order1, f2, candidates[..], files);
    }

    method Glob(pattern: seq<Glyph>) returns (names: seq<string>)
      ensures NoDuplicates(names)
      ensures forall n :: n in names <==> n in files && Matches(pattern, n)
    {
      names := [];
      var rest := files.Keys;
      while rest != {}
        invariant rest <= files.Keys && NoDuplicates(names)
        invariant forall n :: n in names <==> n in files && n !in rest && Matches(pattern, n)
        decreases rest
      {
        var n :| n in rest;
        rest := rest - {n};
        if Matches(pattern, n) { names := names + [n]; }
      }
    }

    /** The archives of a scope: glob, then drop unreadable ones and those with a closer entry. */
    method ListScope(snap: PolicySnapshot, level: Level, details: Details) returns (listing: seq<string>)
      ensures ListsScope(files, snap, level, details, listing)
    {
      var found := Glob(PatternFor(level, details));
      listing := [];
      for i := 0 to |found|
        invariant NoDuplicates(listing)
        invariant forall n :: n in listing <==> n in found[..i] && InScope(files, snap, level, details, n)
      {
        var archive := found[i];
        assert found[..i + 1] == found[..i] + [archive];
        assert archive !in found[..i];
        var identity := files[archive].identity;
        if identity.Some? {
          var container := FindContainerPolicy(snap, identity.value);
          var pod := FindPodPolicy(snap, identity.value);
          if (level.PodLevel? && container.Some?) || (level.NamespaceLevel? && (container.Some? || pod.Some?)) {
          } else {
            listing := listing + [archive];
          }
        }
      }
      assert found[..|found|] == found;
    }

    /** Without retainOrphan every unpinned archive of a scope whose object is gone is removed. */
    method RemoveOrphans(listing: seq<string>)
      modifies `files
      ensures files == old(files) - (set n | n in listing && n !in keep)
    {
      for i := 0 to |listing|
        invariant files == old(files) - (set n | n in listing[..i] && n !in keep)
      {
        assert listing[..i + 1] == listing[..i] + [listing[i]];
        assert (set n | n in listing[..i + 1] && n !in keep) ==
               (set n | n in listing[..i] && n !in keep) + (if listing[i] in keep then {} else {listing[i]});
        if listing[i] !in keep { RemoveArchiveUnlessPinned(listing[i]); }
      }
      assert listing[..|listing|] == listing;
    }

    method HandleCheckpointsForLevel(snap: PolicySnapshot, level: Level, details: Details, p: Policy,
                                     cluster: ClusterLookup)
      modifies `files
      ensures LevelOutcome(old(files), keep, snap, level, details, p, cluster, files)
    {
      if p.maxCheckpoints <= 0 || p.maxCheckpointSize <= 0 || p.maxTotalSize <= 0 { return; }
      var listing := ListScope(snap, level, details);
      if !p.retainOrphan && !cluster.Exists? {
        RemoveOrphans(listing);
        return;
      }
      EnforceLimits(listing, p);
    }

    /** One retention event: the most specific entry for details decides which passes run. */
    method ApplyPolicies(snap: PolicySnapshot, details: Details, cluster: Level -> ClusterLookup)
      modifies `files
      ensures ApplyOutcome(old(files), keep, snap, details, cluster, files)
    {
      var container := FindContainerPolicy(snap, details);
      if container.Some? {
        HandleCheckpointsForLevel(snap, ContainerLevel, details, Effective(container.value.limits), cluster(ContainerLevel));
        return;
      }
      var pod := FindPodPolicy(snap, details);
      if pod.Some? {
        HandleCheckpointsForLevel(snap, PodLevel, details, Effective(pod.value.limits), cluster(PodLevel));
        return;
      }
      var namespace := FindNamespacePolicy(snap, details);
      if namespace.Some? {
        HandleCheckpointsForLevel(snap, NamespaceLevel, details, Effective(namespace.value.limits), cluster(NamespaceLevel));
        return;
      }
      HandleCheckpointsForLevel(snap, ContainerLevel, details, snap.globalContainer, cluster(ContainerLevel));
      HandleCheckpointsForLevel(snap, PodLevel, details, snap.globalPod, cluster(PodLevel));
      HandleCheckpointsForLevel(snap, NamespaceLevel, details, snap.globalNamespace, cluster(NamespaceLevel));
    }

    method CategorizeCheckpoints(names: seq<string>) returns (categories: set<Details>)
      ensures categories == set n | n in names && n in files && files[n].identity.Some? :: files[n].identity.value
    {
      categories := {};
      for i := 0 to |names|
        invariant categories == set n | n in names[..i] && n in files && files[n].identity.Some? :: files[n].identity.value
      {
        assert names[..i + 1] == names[..i] + [names[i]];
        if names[i] in files && files[names[i]].identity.Some? {
          categories := categories + {files[names[i]].identity.value};
        }
      }
      assert names[..|names|] == names;
    }

    method Sweep(categories: set<Details>, snap: PolicySnapshot, cluster: Details -> (Level -> ClusterLookup))
      returns (order: seq<Details>)
      modifies `files
      ensures forall d :: d in order <==> d in categories
      ensures SweepOutcome(old(files), keep, snap, cluster, order, files)
    {
      order := [];
      var left := categories;
      while left != {}
        invariant left <= categories && forall d :: d in order <==> d in categories - left
        invariant SweepOutcome(old(files), keep, snap, cluster, order, files)
        decreases |left|
      {
        var details :| details in left;
        left := left - {details};
        ghost var before := files;
        ApplyPolicies(snap, details, cluster(details));
        SweepMore(old(files), keep, snap, cluster, order, before, details, files);
        order := order + [details];
      }
    }

    /** A sweep: one event per category, in no particular order. */
    method ApplyPoliciesImmediately(snap: PolicySnapshot, cluster: Details -> (Level -> ClusterLookup))
      returns (order: seq<Details>)
      modifies `files
      ensures forall d :: d in order <==> d in Categories(old(files))
      ensures SweepOutcome(old(files), keep, snap, cluster, order, files)
    {
      var names := Glob(SweepPattern());
      var categories := CategorizeCheckpoints(names);
      assert categories == Categories(files);
      order := Sweep(categories, snap, cluster);
    }
  }
}
