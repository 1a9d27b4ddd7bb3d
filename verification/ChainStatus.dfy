/** What the status of a ForensicSnapshotChain tells about the passes behind it: requests, error,
    integrity, times and conditions, for every sequence of reconcile passes. */
module ChainStatus {
  import opened Common
  import opened PodSelector
  import opened SnapshotChain
  import opened ChainRuns

  // ---------- requests ----------

  /** A pass makes requests exactly when a round is due: one per target in listing order, up to and
      including the first that fails. */
  lemma RequestsExactly(spec: Spec, s: Status, p: Pass)
    ensures var n, r := |PassTargets(spec, p)|, Step(spec, s, p).requests;
            if !Due(spec, s, p) then r == 0
            else
              && r <= n && (forall i :: 0 <= i < r - 1 ==> p.outcome(i).Captured?)
              && (r < n ==> r >= 1 && p.outcome(r - 1).CaptureFailed?)
  {}

  lemma TargetsAppend(pods: seq<Pod>, pod: Pod, names: seq<string>)
    ensures Targets(pods + [pod], names) == Targets(pods, names) + PodTargets(pod.name, Selected(pod.containers, names))
  {
    assert (pods + [pod])[..|pods|] == pods;
  }

  lemma {:induction false} TargetsConcat(a: seq<Pod>, b: seq<Pod>, names: seq<string>)
    ensures Targets(a + b, names) == Targets(a, names) + Targets(b, names)
    decreases |b|
  {
    if b == [] {
      assert a + b == a;
    } else {
      var init, last := b[..|b| - 1], b[|b| - 1];
      var of := PodTargets(last.name, Selected(last.containers, names));
      assert a + b == (a + init) + [last] && b == init + [last];
      calc {
        Targets((a + init) + [last], names);
        { TargetsAppend(a + init, last, names); }
        Targets(a + init, names) + of;
        { TargetsConcat(a, init, names); }
        Targets(a, names) + Targets(init, names) + of;
        Targets(a, names) + (Targets(init, names) + of);
        { TargetsAppend(init, last, names); }
        Targets(a, names) + Targets(init + [last], names);
      }
    }
  }

  /** The targets of a listing are those of its pods in order, and of a pod those of its containers in
      order, which are all of them or, if the spec names containers, the named ones. */
  lemma TargetsExactly(a: seq<Pod>, b: seq<Pod>, pod: Pod, c: string, names: seq<string>)
    ensures Targets(a + b, names) == Targets(a, names) + Targets(b, names)
    ensures pod.containers != [] && pod.containers[|pod.containers| - 1] == c ==>
              var fewer := pod.(containers := pod.containers[..|pod.containers| - 1]);
              Targets([pod], names) ==
              Targets([fewer], names) + if names == [] || c in names then [Target(pod.name, c)] else []
    ensures Targets([pod.(containers := [])], names) == []
  {
    TargetsConcat(a, b, names);
    if pod.containers != [] && pod.containers[|pod.containers| - 1] == c {
      var init := pod.containers[..|pod.containers| - 1];
      assert Selected(pod.containers, names) == Selected(init, names) + if names == [] || c in names then [c] else [];
      assert [pod][..0] == [];
    }
  }

  // ---------- error ----------

  /** The first failing answer from i on, or n. */
  function FirstBad(outcome: nat -> Capture, i: nat, n: nat): (k: nat)
    requires i <= n
    ensures i <= k <= n && (k < n ==> outcome(k).CaptureFailed?)
    ensures forall j :: i <= j < k ==> outcome(j).Captured?
    decreases n - i
  {
    if i == n || outcome(i).CaptureFailed? then i else FirstBad(outcome, i + 1, n)
  }

  /** The message of the first failing checkpoint of a round. */
  function Complaint(spec: Spec, p: Pass): string
    requires !AllCaptured(spec, p)
  {
    p.outcome(FirstBad(p.outcome, 0, |PassTargets(spec, p)|)).message
  }

  /** The pass finds a hash algorithm it does not know and persists that. */
  predicate Rejects(spec: Spec, s: Status, p: Pass) {
    s.phase.Running? && p.writeOk && spec.hashAlgorithm !in {"", "sha256"}
  }

  /** The latest complaint that no captured round has cleared. */
  function ErrorOf(spec: Spec, passes: seq<Pass>): string {
    if passes == [] then ""
    else
      var init, p := passes[..|passes| - 1], passes[|passes| - 1];
      var s := After(spec, init);
      if Captures(spec, s, p) then ""
      else if FailedRound(spec, s, p) then Complaint(spec, p)
      else if Rejects(spec, s, p) then "unsupported hash algorithm: " + spec.hashAlgorithm
      else ErrorOf(spec, init)
  }

  lemma ErrorStep(spec: Spec, s: Status, p: Pass)
    ensures Step(spec, s, p).status.errorMessage ==
            if Captures(spec, s, p) then ""
            else if FailedRound(spec, s, p) then Complaint(spec, p)
            else if Rejects(spec, s, p) then "unsupported hash algorithm: " + spec.hashAlgorithm
            else s.errorMessage
  {
    var n := |PassTargets(spec, p)|;
    assert FirstBad(p.outcome, 0, n) == FirstFailure(p.outcome, n);
  }

  /** The error message is that complaint. */
  lemma {:induction false} ErrorTells(spec: Spec, passes: seq<Pass>)
    ensures After(spec, passes).errorMessage == ErrorOf(spec, passes)
    decreases |passes|
  {
    if passes != [] {
      var init, p := passes[..|passes| - 1], passes[|passes| - 1];
      ErrorTells(spec, init);
      ErrorStep(spec, After(spec, init), p);
    }
  }

  // ---------- integrity ----------

  /** Every checkpoint of the round has a checksum. */
  predicate Intact(spec: Spec, p: Pass) {
    forall i :: 0 <= i < |PassTargets(spec, p)| ==> p.outcome(i).Captured? && p.outcome(i).hash.Some?
  }

  function IntegrityOf(spec: Spec, rounds: seq<Pass>): Option<bool> {
    if spec.hashAlgorithm != "sha256" || rounds == [] then None else Some(Intact(spec, rounds[|rounds| - 1]))
  }

  lemma IntegrityStep(spec: Spec, s: Status, rounds: seq<Pass>, p: Pass)
    requires s.integrity == IntegrityOf(spec, rounds)
    ensures Step(spec, s, p).status.integrity == IntegrityOf(spec, NextRounds(spec, s, rounds, p))
  {
    if CleanRound(spec, s, p) {
      NewRecordsCount(spec, s.records, p);
      assert AllHashed(p.outcome, |PassTargets(spec, p)|) == Intact(spec, p);
    }
  }

  lemma NewRecordsCount(spec: Spec, before: seq<Record>, p: Pass)
    requires p.pods.Some? && AllCaptured(spec, p)
    ensures |NewRecords(spec, before, p)| == |PassTargets(spec, p)|
  {}

  /** The integrity flag is about the last captured round alone: it is set iff hashing is on and there
      is one, and true iff all its checksums succeeded, whatever happened in the rounds before. */
  lemma {:induction false} IntegrityTells(spec: Spec, passes: seq<Pass>)
    ensures After(spec, passes).integrity == IntegrityOf(spec, CapturedRounds(spec, passes))
    decreases |passes|
  {
    if passes != [] {
      var init, p := passes[..|passes| - 1], passes[|passes| - 1];
      IntegrityTells(spec, init);
      IntegrityStep(spec, After(spec, init), CapturedRounds(spec, init), p);
    }
  }

  // ---------- times ----------

  /** The time of the first pass that could persist its status. */
  function StartOf(passes: seq<Pass>): Option<int> {
    if passes == [] then None
    else
      var init, p := passes[..|passes| - 1], passes[|passes| - 1];
      if StartOf(init).Some? then StartOf(init) else if p.writeOk then Some(p.now) else None
  }

  /** When the last round that did not fail was persisted. */
  function LastRoundOf(spec: Spec, passes: seq<Pass>): Option<int> {
    if passes == [] then None
    else
      var init, p := passes[..|passes| - 1], passes[|passes| - 1];
      if CleanRound(spec, After(spec, init), p) then Some(p.later) else LastRoundOf(spec, init)
  }

  /** When the chain ended: at the end of its last round, or of the pass that found it should end. */
  function EndOf(spec: Spec, passes: seq<Pass>): Option<int> {
    if passes == [] then None
    else
      var init, p := passes[..|passes| - 1], passes[|passes| - 1];
      var s := After(spec, init);
      if Terminal(s.phase) || !Terminal(After(spec, passes).phase) then EndOf(spec, init)
      else Some(if Due(spec, s, p) then p.later else p.now)
  }

  lemma TimesStep(spec: Spec, s: Status, p: Pass)
    ensures var s' := Step(spec, s, p).status;
            && s'.startTime == (if s.phase.NoPhase? && p.writeOk then Some(p.now) else s.startTime)
            && (s'.phase.NoPhase? <==> s.phase.NoPhase? && !p.writeOk)
            && s'.lastSnapshotTime == (if CleanRound(spec, s, p) then Some(p.later) else s.lastSnapshotTime)
            && (Terminal(s.phase) ==> s' == s)
            && s'.completionTime == if Terminal(s.phase) || !Terminal(s'.phase) then s.completionTime
                                    else Some(if Due(spec, s, p) then p.later else p.now)
  {}

  /** The times are those. */
  lemma {:induction false} TimesTell(spec: Spec, passes: seq<Pass>)
    ensures var s := After(spec, passes);
            && s.startTime == StartOf(passes) && (s.startTime.None? <==> s.phase.NoPhase?)
            && s.lastSnapshotTime == LastRoundOf(spec, passes)
            && s.completionTime == EndOf(spec, passes) && (s.completionTime.Some? <==> s.phase.Completed? || s.phase.Failed?)
    decreases |passes|
  {
    if passes != [] {
      var init, p := passes[..|passes| - 1], passes[|passes| - 1];
      TimesTell(spec, init);
      TimesStep(spec, After(spec, init), p);
    }
  }

  // ---------- the Ready condition ----------

  /** There was a failed round and no captured round has cleared its message. */
  predicate Faulted(spec: Spec, passes: seq<Pass>) {
    if passes == [] then false
    else
      var init, p := passes[..|passes| - 1], passes[|passes| - 1];
      var s := After(spec, init);
      if FailedRound(spec, s, p) then true
      else if Captures(spec, s, p) then Faulted(spec, init) && ErrorOf(spec, init) == ""
      else Faulted(spec, init)
  }

  /** The Ready condition of a chain that has not completed. */
  function ReadyOf(spec: Spec, phase: Phase, faulted: bool): Option<Reason>
    requires !phase.Completed?
  {
    match phase
    case NoPhase => None
    case Pending => Some(IsPending)
    case Failed => Some(if spec.hashAlgorithm in {"", "sha256"} then CheckpointFailed else UnsupportedHash)
    case _ => Some(if faulted then CheckpointError else IsRunning)
  }

  lemma ReadyStep(spec: Spec, s: Status, p: Pass, faulted: bool, faulted': bool)
    requires !s.phase.UnknownPhase? && !s.phase.Completed? && !Step(spec, s, p).status.phase.Completed?
    requires s.ready == ReadyOf(spec, s.phase, faulted)
    requires s.phase.NoPhase? || s.phase.Pending? ==> !faulted
    requires faulted' == (FailedRound(spec, s, p) || (faulted && (Captures(spec, s, p) ==> s.errorMessage == "")))
    ensures var s' := Step(spec, s, p).status; s'.ready == ReadyOf(spec, s'.phase, faulted')
    ensures Step(spec, s, p).status.phase.NoPhase? || Step(spec, s, p).status.phase.Pending? ==> !faulted'
  {}

  lemma CompletedStays(spec: Spec, s: Status, p: Pass)
    requires s.phase.Completed?
    ensures Step(spec, s, p).status == s
  {}

  lemma {:induction false} NotCompletedBefore(spec: Spec, passes: seq<Pass>)
    requires passes != [] && !After(spec, passes).phase.Completed?
    ensures !After(spec, passes[..|passes| - 1]).phase.Completed?
  {
    var init, p := passes[..|passes| - 1], passes[|passes| - 1];
    if After(spec, init).phase.Completed? { CompletedStays(spec, After(spec, init), p); }
  }

  /** In every run the Ready condition of a chain that has not completed is a function of its phase, of
      the hash algorithm and of whether a failed round has been cleared. */
  lemma {:induction false} ReadyTells(spec: Spec, passes: seq<Pass>)
    requires ValidSpec(spec) && !After(spec, passes).phase.Completed?
    ensures After(spec, passes).ready == ReadyOf(spec, After(spec, passes).phase, Faulted(spec, passes))
    ensures After(spec, passes).phase.NoPhase? || After(spec, passes).phase.Pending? ==> !Faulted(spec, passes)
    decreases |passes|
  {
    if passes != [] {
      var init, p := passes[..|passes| - 1], passes[|passes| - 1];
      NotCompletedBefore(spec, passes);
      RunningInvariant(spec, init);
      ReadyTells(spec, init);
      ErrorTells(spec, init);
      ReadyStep(spec, After(spec, init), p, Faulted(spec, init), Faulted(spec, passes));
    }
  }
}
