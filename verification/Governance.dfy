/** The policy hierarchy and the scope filters agree: what a retention event deletes is governed by
    the entry the event was looked up under, exactly as far as file names do not confuse namespaces. */
module Governance {
  import opened Common
  import opened ArchiveNames
  import opened Retention
  import opened Collector

  /** The archive carries the name the kubelet gave to a checkpoint of d. */
  ghost predicate KubeletNamed(n: string, d: Details) {
    IsName(d.ns) && IsName(d.pod) && IsName(d.container) &&
    exists ts :: IsTimestamp(ts) && n == KubeletName(d.pod, d.ns, d.container, ts)
  }

  predicate ValidDetails(d: Details) { IsName(d.ns) && IsName(d.pod) && IsName(d.container) }

  /** The level at which the entry of details is applied, or any level for the global policy. */
  predicate LevelOf(snap: PolicySnapshot, details: Details, level: Level) {
    match Governing(snap, details)
    case ContainerEntry(_) => level.ContainerLevel?
    case PodEntry(_) => level.PodLevel?
    case NamespaceEntry(_) => level.NamespaceLevel?
    case GlobalEntry => true
  }

  /** The lookups depend on the matched fields only. */
  lemma SameFieldsSameEntry(snap: PolicySnapshot, d: Details, e: Details)
    requires d.ns == e.ns
    ensures FindNamespace(snap.namespaces, d) == FindNamespace(snap.namespaces, e)
    ensures d.pod == e.pod ==> FindPod(snap.pods, d) == FindPod(snap.pods, e)
  {}

  /** Which identities a level's pattern catches under the naming convention. */
  lemma CaughtIdentity(level: Level, details: Details, d: Details, n: string)
    requires ValidDetails(details) && KubeletNamed(n, d) && Matches(PatternFor(level, details), n)
    ensures level.ContainerLevel? ==>
              details.pod == d.pod && ScopeKey(details.ns, details.container) == ScopeKey(d.ns, d.container)
    ensures level.PodLevel? ==> details.pod == d.pod
    ensures '-' !in details.ns && '-' !in d.ns ==> details.ns == d.ns
    ensures level.ContainerLevel? && details.ns == d.ns ==> details == d
  {
    var ts :| IsTimestamp(ts) && n == KubeletName(d.pod, d.ns, d.container, ts);
    match level
    case ContainerLevel =>
      ContainerGlobExact(details.pod, details.ns, details.container, d.pod, d.ns, d.container, ts);
      if '-' !in details.ns && '-' !in d.ns { DashFreeKey(details.ns, details.container, d.ns, d.container); }
      assert details.container == ScopeKey(details.ns, details.container)[|details.ns| + 1..];
      assert d.container == ScopeKey(d.ns, d.container)[|d.ns| + 1..];
    case PodLevel =>
      PodGlobExact(details.pod, details.ns, d.pod, d.ns, d.container, ts);
      if '-' !in details.ns && '-' !in d.ns { DashFreeTail(details.ns, d.ns, d.container, ts); }
    case NamespaceLevel =>
      NamespaceGlobExact(details.ns, d.pod, d.ns, d.container, ts);
      if '-' !in details.ns && '-' !in d.ns { DashFreeTail(details.ns, d.ns, d.container, ts); }
  }

  /** An archive in the scope of an event has the event's entry exactly when it is of the event's
      namespace, or the global policy governs both. */
  lemma ScopeGovernance(files: Files, snap: PolicySnapshot, level: Level, details: Details, n: string)
    requires ValidDetails(details) && LevelOf(snap, details, level)
    requires InScope(files, snap, level, details, n) && KubeletNamed(n, files[n].identity.value)
    ensures var d := files[n].identity.value;
            Governing(snap, d) == Governing(snap, details) <==>
            d.ns == details.ns || (Governing(snap, d).GlobalEntry? && Governing(snap, details).GlobalEntry?)
  {
    var d := files[n].identity.value;
    CaughtIdentity(level, details, d, n);
    if d.ns == details.ns { SameFieldsSameEntry(snap, d, details); }
  }

  /** The exact condition for an archive of d to share the governing entry of the event. */
  predicate SameGovernance(snap: PolicySnapshot, d: Details, details: Details) {
    d.ns == details.ns || (Governing(snap, d).GlobalEntry? && Governing(snap, details).GlobalEntry?)
  }

  /** Nothing is changed, only readable archives are deleted, and a deleted archive under its kubelet
      name is governed by the event's entry exactly if it is of the event's namespace or the global
      policy governs both. */
  ghost predicate DeletesExactly(files: Files, snap: PolicySnapshot, details: Details, after: Files) {
    && after.Keys <= files.Keys && (forall n :: n in after ==> after[n] == files[n])
    && forall n :: n in files && n !in after ==>
         && files[n].identity.Some?
         && (KubeletNamed(n, files[n].identity.value) ==> Exact(snap, details, files[n].identity.value))
  }

  predicate Exact(snap: PolicySnapshot, details: Details, d: Details) {
    && (Governing(snap, d) == Governing(snap, details) <==> SameGovernance(snap, d, details))
    && ('-' !in d.ns && '-' !in details.ns ==> d.ns == details.ns)
  }

  lemma ScopeExact(files: Files, snap: PolicySnapshot, level: Level, details: Details, n: string)
    requires ValidDetails(details) && LevelOf(snap, details, level)
    requires InScope(files, snap, level, details, n) && KubeletNamed(n, files[n].identity.value)
    ensures Exact(snap, details, files[n].identity.value)
  {
    CaughtIdentity(level, details, files[n].identity.value, n);
    ScopeGovernance(files, snap, level, details, n);
  }

  lemma LevelDeletesGoverned(files: Files, keep: set<string>, snap: PolicySnapshot, level: Level, details: Details,
                             p: Policy, cluster: ClusterLookup, after: Files)
    requires ValidDetails(details) && LevelOf(snap, details, level)
    requires LevelOutcome(files, keep, snap, level, details, p, cluster, after)
    ensures DeletesExactly(files, snap, details, after)
    ensures forall n :: n in files && n in keep ==> n in after
  {
    if Positive(p) && (p.retainOrphan || cluster.Exists?) {
      var listing :| ListsScope(files, snap, level, details, listing) && PassOutcome(files, keep, p, listing, after);
      PassSafety(files, keep, p, listing, after);
    }
    forall n | n in files && n !in after
      ensures files[n].identity.Some?
      ensures KubeletNamed(n, files[n].identity.value) ==> Exact(snap, details, files[n].identity.value)
    {
      assert InScope(files, snap, level, details, n);
      if KubeletNamed(n, files[n].identity.value) { ScopeExact(files, snap, level, details, n); }
    }
  }

  /** Main result: exactly which archives a retention event may delete against the hierarchy. A deleted
      archive shares the event's governing entry if and only if it is of the event's namespace or the
      global policy governs both; pinned archives survive. */
  lemma EventDeletesGoverned(files: Files, keep: set<string>, snap: PolicySnapshot, details: Details,
                             cluster: Level -> ClusterLookup, after: Files)
    requires ValidDetails(details)
    requires ApplyOutcome(files, keep, snap, details, cluster, after)
    ensures DeletesExactly(files, snap, details, after)
    ensures forall n :: n in files && n in keep ==> n in after
  {
    match Governing(snap, details)
    case ContainerEntry(i) =>
      LevelDeletesGoverned(files, keep, snap, ContainerLevel, details, Effective(snap.containers[i].limits),
                           cluster(ContainerLevel), after);
    case PodEntry(j) =>
      LevelDeletesGoverned(files, keep, snap, PodLevel, details, Effective(snap.pods[j].limits), cluster(PodLevel), after);
    case NamespaceEntry(k) =>
      LevelDeletesGoverned(files, keep, snap, NamespaceLevel, details, Effective(snap.namespaces[k].limits),
                           cluster(NamespaceLevel), after);
    case GlobalEntry => GlobalDeletesGoverned(files, keep, snap, details, cluster, after);
  }

  lemma GlobalDeletesGoverned(files: Files, keep: set<string>, snap: PolicySnapshot, details: Details,
                              cluster: Level -> ClusterLookup, after: Files)
    requires ValidDetails(details) && Governing(snap, details).GlobalEntry?
    requires GlobalOutcome(files, keep, snap, details, cluster, after)
    ensures DeletesExactly(files, snap, details, after)
    ensures forall n :: n in files && n in keep ==> n in after
  {
    var mid1, mid2 :|
      && LevelOutcome(files, keep, snap, ContainerLevel, details, snap.globalContainer, cluster(ContainerLevel), mid1)
      && LevelOutcome(mid1, keep, snap, PodLevel, details, snap.globalPod, cluster(PodLevel), mid2)
      && LevelOutcome(mid2, keep, snap, NamespaceLevel, details, snap.globalNamespace, cluster(NamespaceLevel), after);
    LevelDeletesGoverned(files, keep, snap, ContainerLevel, details, snap.globalContainer, cluster(ContainerLevel), mid1);
    LevelDeletesGoverned(mid1, keep, snap, PodLevel, details, snap.globalPod, cluster(PodLevel), mid2);
    LevelDeletesGoverned(mid2, keep, snap, NamespaceLevel, details, snap.globalNamespace, cluster(NamespaceLevel), after);
  }

  /** Among dash-free namespaces an event deletes only what its own entry governs. */
  lemma DashFreeEventGoverned(files: Files, keep: set<string>, snap: PolicySnapshot, details: Details,
                              cluster: Level -> ClusterLookup, after: Files, n: string)
    requires ValidDetails(details) && '-' !in details.ns
    requires ApplyOutcome(files, keep, snap, details, cluster, after)
    requires n in files && n !in after
    ensures files[n].identity.Some?
    ensures KubeletNamed(n, files[n].identity.value) && '-' !in files[n].identity.value.ns ==>
              Governing(snap, files[n].identity.value) == Governing(snap, details)
  {
    EventDeletesGoverned(files, keep, snap, details, cluster, after);
  }

  lemma DashedInScope(a: string, b: string, pod: string, container: string, ts: string, snap: PolicySnapshot, f: Archive)
    requires IsName(a) && IsName(b) && IsName(pod) && IsName(container) && IsTimestamp(ts)
    requires snap.containers == [] && snap.pods == [] && f.identity == Some(Details(a + "-" + b, pod, container))
    ensures var n := KubeletName(pod, a + "-" + b, container, ts);
            InScope(map[n := f], snap, NamespaceLevel, Details(a, pod, container), n)
  {
    assert IsName(a + "-" + b);
    NamespaceGlobExact(a, pod, a + "-" + b, container, ts);
    DashedTail(a, b, container, ts);
  }

  lemma DashedTail(a: string, b: string, container: string, ts: string)
    ensures CatchesTail(a, AfterPod(a + "-" + b, container, ts))
  {
    var after := AfterPod(a + "-" + b, container, ts);
    assert after == (a + "-") + (b + "-" + container + "-" + ts + ".tar");
    assert after[|a| + 1..|after| - 4] == b + "-" + container + "-" + ts;
    assert (b + "-" + container + "-" + ts)[|b|] == '-';
    assert after[|after| - 4..] == ".tar";
  }

  /** A pass over a single oversize archive leaves nothing. */
  lemma OversizeGoes(n: string, f: Archive, p: Policy)
    requires f.size > p.maxCheckpointSize && Positive(p)
    ensures PassOutcome(map[n := f], {}, p, [n], map[])
  {
    var files := map[n := f];
    assert [n][..0] == [];
    assert Oversize(files, {}, p, n);
    assert Candidates(files, {}, p, []) == [] && Candidates(files, {}, p, [n]) == [];
    assert Retained(files, {}, p, []) == [] && Retained(files, {}, p, [n]) == [];
    assert DeletionOrder(files, {}, p, [n], []);
    assert OversizeIn(files, {}, p, [n]) == {n};
    var none: seq<string> := [];
    assert none[..0] == [] && Elements(none[..0]) == {};
    assert IsCut(files, {}, p, [n], none, 0);
    assert Survivors(files, {}, p, [n], none, 0) == map[];
  }

  /** With dashes it fails: an event of namespace a, whose entry limits archives to one byte, deletes
      the two-byte archive of namespace a-b, which that entry does not govern. */
  lemma DashedNamespaceIsDeleted(a: string, b: string, pod: string, container: string, ts: string, global: Policy,
                                 mtime: int, cluster: Level -> ClusterLookup)
    requires IsName(a) && IsName(b) && IsName(pod) && IsName(container) && IsTimestamp(ts)
    ensures var d := Details(a + "-" + b, pod, container);
            var files := map[KubeletName(pod, a + "-" + b, container, ts) := Archive(2, mtime, Some(d))];
            var snap := PolicySnapshot([], [], [NamespacePolicy(a, Limits(None, None, Some(1), None))], global, global, global);
            && ApplyOutcome(files, {}, snap, Details(a, pod, container), cluster, map[])
            && Governing(snap, d) != Governing(snap, Details(a, pod, container))
  {
    var d, details := Details(a + "-" + b, pod, container), Details(a, pod, container);
    var n, f := KubeletName(pod, a + "-" + b, container, ts), Archive(2, mtime, Some(d));
    var limits := Limits(None, None, Some(1), None);
    var snap := PolicySnapshot([], [], [NamespacePolicy(a, limits)], global, global, global);
    DashedInScope(a, b, pod, container, ts, snap, f);
    OversizeGoes(n, f, Effective(limits));
    assert ListsScope(map[n := f], snap, NamespaceLevel, details, [n]);
    assert a + "-" + b != a by { assert |a + "-" + b| > |a|; }
    assert Governing(snap, details) == NamespaceEntry(0);
  }

  // ---------- which entry, which scope, which sweep ----------

  predicate NamesContainer(p: ContainerPolicy, d: Details) { (p.ns, p.pod, p.container) == (d.ns, d.pod, d.container) }

  predicate NamesPod(p: PodPolicy, d: Details) { (p.ns, p.pod) == (d.ns, d.pod) }

  /** None of the first n entries is for this container. */
  predicate NoContainerEntry(ps: seq<ContainerPolicy>, n: nat, d: Details) {
    forall i :: 0 <= i < n && i < |ps| ==> !NamesContainer(ps[i], d)
  }

  predicate NoPodEntry(ps: seq<PodPolicy>, n: nat, d: Details) {
    forall i :: 0 <= i < n && i < |ps| ==> !NamesPod(ps[i], d)
  }

  predicate NoNamespaceEntry(ps: seq<NamespacePolicy>, n: nat, d: Details) {
    forall i :: 0 <= i < n && i < |ps| ==> ps[i].ns != d.ns
  }

  /** A container's own entry comes before its pod's, that before its namespace's, and the global policy
      comes last; among entries for the same thing the first counts. */
  lemma GoverningExactly(snap: PolicySnapshot, d: Details, i: nat)
    ensures Governing(snap, d) == ContainerEntry(i) <==>
            i < |snap.containers| && NamesContainer(snap.containers[i], d) && NoContainerEntry(snap.containers, i, d)
    ensures Governing(snap, d) == PodEntry(i) <==>
            && NoContainerEntry(snap.containers, |snap.containers|, d)
            && i < |snap.pods| && NamesPod(snap.pods[i], d) && NoPodEntry(snap.pods, i, d)
    ensures Governing(snap, d) == NamespaceEntry(i) <==>
            && NoContainerEntry(snap.containers, |snap.containers|, d) && NoPodEntry(snap.pods, |snap.pods|, d)
            && i < |snap.namespaces| && snap.namespaces[i].ns == d.ns && NoNamespaceEntry(snap.namespaces, i, d)
    ensures Governing(snap, d) == GlobalEntry <==>
            NoContainerEntry(snap.containers, |snap.containers|, d) && NoPodEntry(snap.pods, |snap.pods|, d) && NoNamespaceEntry(snap.namespaces, |snap.namespaces|, d)
  {
    FirstContainerEntry(snap.containers, d, i);
    FirstPodEntry(snap.pods, d, i);
    FirstNamespaceEntry(snap.namespaces, d, i);
  }

  lemma FirstContainerEntry(ps: seq<ContainerPolicy>, d: Details, i: nat)
    ensures FindContainer(ps, d) == |ps| <==> NoContainerEntry(ps, |ps|, d)
    ensures i < |ps| ==> (FindContainer(ps, d) == i <==> NamesContainer(ps[i], d) && NoContainerEntry(ps, i, d))
  {}

  lemma FirstPodEntry(ps: seq<PodPolicy>, d: Details, i: nat)
    ensures FindPod(ps, d) == |ps| <==> NoPodEntry(ps, |ps|, d)
    ensures i < |ps| ==> (FindPod(ps, d) == i <==> NamesPod(ps[i], d) && NoPodEntry(ps, i, d))
  {}

  lemma FirstNamespaceEntry(ps: seq<NamespacePolicy>, d: Details, i: nat)
    ensures FindNamespace(ps, d) == |ps| <==> NoNamespaceEntry(ps, |ps|, d)
    ensures i < |ps| ==> (FindNamespace(ps, d) == i <==> ps[i].ns == d.ns && NoNamespaceEntry(ps, i, d))
  {}

  /** A scope leaves out exactly the archives that an entry of a narrower level is for. */
  lemma ScopeExactly(files: Files, snap: PolicySnapshot, level: Level, details: Details, n: string)
    ensures InScope(files, snap, level, details, n) <==>
            && n in files && files[n].identity.Some? && Matches(PatternFor(level, details), n)
            && (level.ContainerLevel? || NoContainerEntry(snap.containers, |snap.containers|, files[n].identity.value))
            && (level.NamespaceLevel? ==> NoPodEntry(snap.pods, |snap.pods|, files[n].identity.value))
  {
    if n in files && files[n].identity.Some? {
      FirstContainerEntry(snap.containers, files[n].identity.value, 0);
      FirstPodEntry(snap.pods, files[n].identity.value, 0);
    }
  }

  lemma SweepMatches(pod: string, ns: string, container: string, ts: string)
    requires IsName(pod) && IsName(ns) && IsName(container) && IsTimestamp(ts)
    ensures Matches(SweepPattern(), KubeletName(pod, ns, container, ts))
  {
    var after := AfterPod(ns, container, ts);
    var n, tail := KubeletName(pod, ns, container, ts), [Star, Lit('-'), Star, Lit('-'), Star] + Lits(".tar");
    KubeletNameChars(pod, ns, container, ts);
    AfterMatches(ns, container, ts);
    var rest := n[|"checkpoint-"|..];
    assert n[..|"checkpoint-"|] == "checkpoint-" && rest == pod + "_" + after;
    assert rest[|pod|..] == "_" + after && ("_" + after)[1..] == after && ("_" + after)[..1] == "_";
    MatchHead(Lits("_"), tail, rest[|pod|..]);
    MatchStar(Lits("_") + tail, rest);
    MatchHead(Lits("checkpoint-"), [Star] + (Lits("_") + tail), n);
  }

  /** "*-" in front of a pattern that matches behind a dash. */
  lemma StarDash(head: string, inner: seq<Glyph>, last: string)
    requires '/' !in head + "-" + last && Matches(inner, last)
    ensures Matches([Star] + ([Lit('-')] + inner), head + "-" + last)
  {
    var s := head + "-" + last;
    assert s[|head|..] == "-" + last && ("-" + last)[1..] == last && ("-" + last)[..1] == "-";
    MatchHead([Lit('-')], inner, s[|head|..]);
    MatchStar([Lit('-')] + inner, s);
  }

  lemma AfterMatches(ns: string, container: string, ts: string)
    requires IsName(ns) && IsName(container) && IsTimestamp(ts)
    ensures Matches([Star, Lit('-'), Star, Lit('-'), Star] + Lits(".tar"), AfterPod(ns, container, ts))
  {
    var inner, last, stamp := [Star] + ([Lit('-')] + ([Star] + Lits(".tar"))), container + "-" + (ts + ".tar"), ts + ".tar";
    AfterPodChars(ns, container, ts);
    assert AfterPod(ns, container, ts) == ns + "-" + last;
    assert '/' !in ns + "-" + last;
    NoSlashBehind(ns + "-", last);
    NoSlashBehind(container + "-", stamp);
    assert stamp[|stamp| - 4..] == ".tar";
    MatchStarSuffix(".tar", stamp);
    StarDash(container, [Star] + Lits(".tar"), stamp);
    StarDash(ns, inner, last);
    assert [Star, Lit('-'), Star, Lit('-'), Star] + Lits(".tar") == [Star] + ([Lit('-')] + inner);
  }

  lemma NoSlashBehind(a: string, b: string)
    requires '/' !in a + b
    ensures '/' !in b
  {
    forall i | 0 <= i < |b| ensures b[i] != '/' { assert (a + b)[|a| + i] == b[i]; }
  }

  /** A sweep meets every readable archive that carries its kubelet name. */
  lemma SweepMeetsAll(files: Files, n: string)
    requires n in files && files[n].identity.Some? && KubeletNamed(n, files[n].identity.value)
    ensures files[n].identity.value in Categories(files)
  {
    var d := files[n].identity.value;
    var ts :| IsTimestamp(ts) && n == KubeletName(d.pod, d.ns, d.container, ts);
    SweepMatches(d.pod, d.ns, d.container, ts);
  }
}
