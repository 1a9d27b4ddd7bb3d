/** The ForensicSnapshotChain controller: a persisted phase machine that captures rounds of
    checkpoints, links their records by hash and finally may delete the captured pods. */
module SnapshotChain {
  import opened Common
  import opened PodSelector

  datatype Phase = NoPhase | Pending | Running | Completed | Failed | UnknownPhase

  /** Times and durations are in seconds. */
  const DEFAULT_INTERVAL := 30
  const MAX_CONSECUTIVE_FAILURES := 5

  datatype Spec = Spec(
    containerNames: seq<string>, interval: Option<int>, maxSnapshots: Option<int>, maxDuration: Option<int>,
    hashAlgorithm: string, deletePods: bool)

  datatype Record = Record(index: int, pod: string, container: string, time: int, path: string,
                           hash: string, previousHash: string)

  /** Reason of the Ready condition. */
  datatype Reason =
    | IsPending | IsRunning | MaxDurationReached | MaxSnapshotsReached | NoMatchingPods
    | CheckpointError | CheckpointFailed | UnsupportedHash

  datatype Status = Status(
    phase: Phase, snapshotCount: int, attemptCount: int, failureCount: int,
    startTime: Option<int>, lastSnapshotTime: Option<int>, completionTime: Option<int>,
    errorMessage: string, records: seq<Record>, ready: Option<Reason>, integrity: Option<bool>)

  const NEW_STATUS := Status(NoPhase, 0, 0, 0, None, None, None, "", [], None, None)

  /** What the kubelet and the checksum helper answer for one container of a round. */
  datatype Capture = Captured(path: string, hash: Option<string>) | CaptureFailed(message: string)

  /** The outside world as one reconcile pass sees it: clock at its start and end, the running pods
      that match (None if the list call fails), the answers to its requests in order, whether its
      status write succeeds, and for which pods a delete call fails. */
  datatype Pass = Pass(now: int, later: int, pods: Option<seq<Pod>>, outcome: nat -> Capture, writeOk: bool,
                       deleteFails: nat -> bool)

  /** int32 addition of one. */
  function Inc32(x: int): int { if x == MAX_INT32 then -MAX_INT32 - 1 else x + 1 }

  /** A natural number as int32: what n increments of a zero counter leave. */
  function ToInt32(n: nat): int { if n == 0 then 0 else Inc32(ToInt32(n - 1)) }

  lemma {:induction false} ToInt32Small(n: nat)
    requires n <= MAX_INT32
    ensures ToInt32(n) == n
  {
    if n > 0 { ToInt32Small(n - 1); }
  }

  /** The conversion wraps around in two's complement. */
  lemma {:induction false} ToInt32Wraps(n: nat)
    ensures -MAX_INT32 - 1 <= ToInt32(n) <= MAX_INT32 && (n - ToInt32(n)) % 4294967296 == 0
  {
    if n > 0 { ToInt32Wraps(n - 1); }
  }

  // ---------- one round ----------

  datatype Target = Target(pod: string, container: string)

  function PodTargets(pod: string, containers: seq<string>): seq<Target> {
    seq(|containers|, i requires 0 <= i < |containers| => Target(pod, containers[i]))
  }

  /** Every selected container of every pod, in listing order. */
  function Targets(pods: seq<Pod>, names: seq<string>): seq<Target> {
    if pods == [] then []
    else
      var init, last := pods[..|pods| - 1], pods[|pods| - 1];
      Targets(init, names) + PodTargets(last.name, Selected(last.containers, names))
  }

  /** The first position below n whose checkpoint fails, or n. */
  function FirstFailure(outcome: nat -> Capture, n: nat): (k: nat)
    ensures k <= n && (forall i :: 0 <= i < k ==> outcome(i).Captured?) && (k < n ==> outcome(k).CaptureFailed?)
  {
    if n == 0 then 0
    else
      var k := FirstFailure(outcome, n - 1);
      if k < n - 1 || outcome(n - 1).CaptureFailed? then k else n
  }

  predicate Hashed(c: Capture) { c.Captured? && c.hash.Some? }

  /** Hash of the latest hashed capture among the first k, or the seed. */
  function RunningHash(outcome: nat -> Capture, k: nat, seed: string): string {
    if k == 0 then seed
    else if Hashed(outcome(k - 1)) then outcome(k - 1).hash.value
    else RunningHash(outcome, k - 1, seed)
  }

  /** The k-th record of a round that starts at position base of the chain. */
  function MakeRecord(t: Target, c: Capture, base: nat, k: nat, time: int, hashing: bool, link: string): Record
    requires c.Captured?
  {
    var h := hashing && c.hash.Some?;
    Record(ToInt32(base + k), t.pod, t.container, time, c.path,
           if h then c.hash.value else "", if h then link else "")
  }

  /** Records of the first k captures of a round. */
  function RoundRecords(ts: seq<Target>, outcome: nat -> Capture, k: nat, base: nat, time: int, hashing: bool,
                        seed: string): (rs: seq<Record>)
    requires k <= |ts| && forall i :: 0 <= i < k ==> outcome(i).Captured?
    ensures |rs| == k
  {
    if k == 0 then []
    else
      RoundRecords(ts, outcome, k - 1, base, time, hashing, seed) +
      [MakeRecord(ts[k - 1], outcome(k - 1), base, k - 1, time, hashing, RunningHash(outcome, k - 1, seed))]
  }

  function LastHash(records: seq<Record>): string {
    if records == [] then "" else records[|records| - 1].hash
  }

  function Hashing(spec: Spec): bool { spec.hashAlgorithm == "sha256" }

  /** The records of a pass's round, up to its first failure, behind the given records. */
  function NewRecords(spec: Spec, records: seq<Record>, p: Pass): seq<Record> {
    if p.pods.None? then []
    else
      var ts := Targets(p.pods.value, spec.containerNames);
      RoundRecords(ts, p.outcome, FirstFailure(p.outcome, |ts|), |records|, p.now, Hashing(spec), LastHash(records))
  }

  predicate AllHashed(outcome: nat -> Capture, n: nat) {
    forall i :: 0 <= i < n ==> Hashed(outcome(i))
  }

  // ---------- one pass ----------

  /** New status, number of checkpoint requests made, pods for which a delete was issued. */
  datatype Result = Result(status: Status, requests: nat, deletes: seq<string>)

  function Interval(spec: Spec): int { if spec.interval.Some? then spec.interval.value else DEFAULT_INTERVAL }

  predicate Terminal(ph: Phase) { ph.Completed? || ph.Failed? }

  predicate HashUnsupported(spec: Spec) { spec.hashAlgorithm != "" && spec.hashAlgorithm != "sha256" }

  predicate PastDeadline(spec: Spec, s: Status, now: int) {
    spec.maxDuration.Some? && s.startTime.Some? && now - s.startTime.value > spec.maxDuration.value
  }

  predicate TooEarly(spec: Spec, s: Status, now: int) {
    s.lastSnapshotTime.Some? && now < s.lastSnapshotTime.value + Interval(spec)
  }

  /** Delete calls go out in listing order and stop after the first that fails. */
  function DeleteCalls(pods: seq<Pod>, fails: nat -> bool, i: nat): seq<string>
    requires i <= |pods|
    decreases |pods| - i
  {
    if i == |pods| then []
    else [pods[i].name] + (if fails(i) then [] else DeleteCalls(pods, fails, i + 1))
  }

  function PostAction(spec: Spec, p: Pass, snapshotCount: int): seq<string>
    requires p.pods.Some?
  {
    if spec.deletePods && snapshotCount != 0 then DeleteCalls(p.pods.value, p.deleteFails, 0) else []
  }

  function AfterFailure(spec: Spec, s: Status, p: Pass, message: string): Status {
    var giveUp := spec.maxDuration.None? && Inc32(s.failureCount) >= MAX_CONSECUTIVE_FAILURES;
    s.(failureCount := Inc32(s.failureCount), errorMessage := message,
       phase := if giveUp then Failed else s.phase,
       completionTime := if giveUp then Some(p.later) else s.completionTime,
       ready := Some(if giveUp then CheckpointFailed else CheckpointError))
  }

  function ReasonToStop(spec: Spec, s: Status, captured: nat): Option<Reason> {
    if spec.maxSnapshots.None? then None
    else
      var limit := spec.maxSnapshots.value;
      var snapshots := if captured > 0 then Inc32(s.snapshotCount) else s.snapshotCount;
      if snapshots >= limit then Some(MaxSnapshotsReached)
      else if captured == 0 && spec.maxDuration.None? && Inc32(s.attemptCount) >= limit then Some(NoMatchingPods)
      else None
  }

  /** A round that checkpointed n containers without failure. */
  function AfterCapture(spec: Spec, s: Status, later: int, n: nat, added: seq<Record>, allHashed: bool): Status {
    var stop := ReasonToStop(spec, s, n);
    var recovered := n > 0 && s.errorMessage != "";
    s.(lastSnapshotTime := Some(later),
       attemptCount := Inc32(s.attemptCount),
       failureCount := 0,
       snapshotCount := if n > 0 then Inc32(s.snapshotCount) else s.snapshotCount,
       errorMessage := if n > 0 then "" else s.errorMessage,
       records := s.records + added,
       integrity := if added != [] && Hashing(spec) then Some(allHashed) else s.integrity,
       phase := if stop.Some? then Completed else s.phase,
       completionTime := if stop.Some? then Some(later) else s.completionTime,
       ready := if stop.Some? then stop else if recovered then Some(IsRunning) else s.ready)
  }

  function AfterRound(spec: Spec, s: Status, p: Pass): Status
    requires p.pods.Some?
  {
    var n := |Targets(p.pods.value, spec.containerNames)|;
    AfterCapture(spec, s, p.later, n, NewRecords(spec, s.records, p), AllHashed(p.outcome, n))
  }

  function RoundStep(spec: Spec, s: Status, p: Pass): Result
    requires p.pods.Some?
  {
    var ts := Targets(p.pods.value, spec.containerNames);
    var k := FirstFailure(p.outcome, |ts|);
    if k < |ts| then
      Result(if p.writeOk then AfterFailure(spec, s, p, p.outcome(k).message) else s, k + 1, [])
    else if !p.writeOk then Result(s, |ts|, [])
    else
      var s' := AfterRound(spec, s, p);
      Result(s', |ts|, if s'.phase.Completed? && !s.phase.Completed? then PostAction(spec, p, s'.snapshotCount) else [])
  }

  function RunningStep(spec: Spec, s: Status, p: Pass): Result {
    if HashUnsupported(spec) then
      Result(if p.writeOk
             then s.(phase := Failed, errorMessage := "unsupported hash algorithm: " + spec.hashAlgorithm,
                     completionTime := Some(p.now), ready := Some(UnsupportedHash))
             else s, 0, [])
    else if PastDeadline(spec, s, p.now) then
      if spec.deletePods && p.pods.None? then Result(s, 0, [])
      else if !p.writeOk then Result(s, 0, [])
      else
        Result(s.(phase := Completed, completionTime := Some(p.now), ready := Some(MaxDurationReached)), 0,
               if spec.deletePods then PostAction(spec, p, s.snapshotCount) else [])
    else if TooEarly(spec, s, p.now) || p.pods.None? then Result(s, 0, [])
    else RoundStep(spec, s, p)
  }

  /** One reconcile pass. A status write that fails leaves the persisted status as it was. */
  function Step(spec: Spec, s: Status, p: Pass): Result {
    match s.phase
    case NoPhase =>
      Result(if p.writeOk then s.(phase := Pending, startTime := Some(p.now), ready := Some(IsPending)) else s, 0, [])
    case Pending =>
      Result(if p.writeOk then s.(phase := Running, ready := Some(IsRunning)) else s, 0, [])
    case Running => RunningStep(spec, s, p)
    case _ => Result(s, 0, [])
  }

  // ---------- the controller ----------

  class Chain {
    const spec: Spec
    var phase: Phase
    var snapshotCount: int
    var attemptCount: int
    var failureCount: int
    var startTime: Option<int>
    var lastSnapshotTime: Option<int>
    var completionTime: Option<int>
    var errorMessage: string
    var records: seq<Record>
    var ready: Option<Reason>
    var integrity: Option<bool>

    constructor (spec: Spec)
      ensures this.spec == spec && Persisted() == NEW_STATUS
    {
      this.spec := spec;
      phase, snapshotCount, attemptCount, failureCount := NoPhase, 0, 0, 0;
      startTime, lastSnapshotTime, completionTime := None, None, None;
      errorMessage, records, ready, integrity := "", [], None, None;
    }

    ghost function Persisted(): Status
      reads this
    {
      Status(phase, snapshotCount, attemptCount, failureCount, startTime, lastSnapshotTime, completionTime,
             errorMessage, records, ready, integrity)
    }

    /** The record of one checkpoint, hashed and linked if hashing is on and the checksum succeeded. */
    method BuildRecord(pod: string, container: string, answer: Capture, k: nat, time: int, link: string)
      returns (record: Record, previousHash: string, hashFailed: bool)
      requires answer.Captured?
      ensures record == MakeRecord(Target(pod, container), answer, |records|, k, time, Hashing(spec), link)
      ensures previousHash == if Hashing(spec) && answer.hash.Some? then answer.hash.value else link
      ensures hashFailed <==> Hashing(spec) && answer.hash.None?
    {
      record := Record(ToInt32(|records| + k), pod, container, time, answer.path, "", "");
      previousHash, hashFailed := link, false;
      if Hashing(spec) {
        if answer.hash.None? {
          hashFailed := true;
        } else {
          record := record.(previousHash := previousHash, hash := answer.hash.value);
          previousHash := answer.hash.value;
        }
      }
    }

    /** Inner capture loop: the selected containers of one pod, from request number captured on. */
    method CapturePod(pod: Pod, p: Pass, done: nat, before: seq<Record>, link: string, bad: bool,
                      ghost ts: seq<Target>, ghost seed: string)
      returns (failure: Option<string>, captured: nat, newRecords: seq<Record>, previousHash: string, integrityFailed: bool)
      requires SoFar(ts, p, |records|, Hashing(spec), seed, done, before, link, bad)
      requires NextTargets(ts, done, pod, spec.containerNames)
      ensures SoFar(ts, p, |records|, Hashing(spec), seed, captured, newRecords, previousHash, integrityFailed)
      ensures failure.None? ==> captured == done + |Selected(pod.containers, spec.containerNames)|
      ensures failure.Some? ==> captured < |ts| && p.outcome(captured) == CaptureFailed(failure.value)
    {
      failure, captured, newRecords, previousHash, integrityFailed := None, done, before, link, bad;
      var selected := FilterContainers(pod.containers, spec.containerNames);
      for j := 0 to |selected|
        invariant captured == done + j
        invariant SoFar(ts, p, |records|, Hashing(spec), seed, captured, newRecords, previousHash, integrityFailed)
      {
        assert ts[captured] == ts[done..done + |selected|][j] == Target(pod.name, selected[j]);
        var answer := p.outcome(captured);
        if answer.CaptureFailed? {
          failure := Some(answer.message);
          return;
        }
        SoFarStep(ts, p, |records|, Hashing(spec), seed, captured, newRecords, previousHash, integrityFailed);
        var record, hashFailed;
        record, previousHash, hashFailed := BuildRecord(pod.name, selected[j], answer, |newRecords|, p.now, previousHash);
        integrityFailed := integrityFailed || hashFailed;
        newRecords := newRecords + [record];
        captured := captured + 1;
      }
    }

    /** The capture loops of a round. Stops at the first checkpoint that fails. */
    method CaptureRound(pods: seq<Pod>, p: Pass)
      returns (failure: Option<string>, captured: nat, newRecords: seq<Record>, previousHash: string, integrityFailed: bool)
      ensures SoFar(Targets(pods, spec.containerNames), p, |records|, Hashing(spec), LastHash(records), captured,
                    newRecords, previousHash, integrityFailed)
      ensures failure.None? ==> captured == |Targets(pods, spec.containerNames)|
      ensures failure.Some? ==> captured < |Targets(pods, spec.containerNames)| &&
                                p.outcome(captured) == CaptureFailed(failure.value)
    {
      captured, newRecords, integrityFailed, failure := 0, [], false, None;
      previousHash := "";
      if |records| > 0 { previousHash := records[|records| - 1].hash; }
      ghost var seed, ts := LastHash(records), Targets(pods, spec.containerNames);
      assert pods[..|pods|] == pods;
      for i := 0 to |pods|
        invariant captured == |Targets(pods[..i], spec.containerNames)| && failure.None?
        invariant SoFar(ts, p, |records|, Hashing(spec), seed, captured, newRecords, previousHash, integrityFailed)
      {
        TargetsPrefix(pods, spec.containerNames, i);
        failure, captured, newRecords, previousHash, integrityFailed :=
          CapturePod(pods[i], p, captured, newRecords, previousHash, integrityFailed, ts, seed);
        if failure.Some? { break; }
      }
    }

    method ExecutePostSnapshotAction(pods: seq<Pod>, snapshots: int, p: Pass) returns (deletes: seq<string>)
      ensures deletes == if spec.deletePods && snapshots != 0 then DeleteCalls(pods, p.deleteFails, 0) else []
    {
      deletes := [];
      if !spec.deletePods || snapshots == 0 { return; }
      for i := 0 to |pods|
        invariant deletes + DeleteCalls(pods, p.deleteFails, i) == DeleteCalls(pods, p.deleteFails, 0)
      {
        deletes := deletes + [pods[i].name];
        if p.deleteFails(i) { return; }
      }
    }

    method AppendRoundRecords(newRecords: seq<Record>, integrityFailed: bool)
      modifies `records, `integrity
      ensures records == old(records) + newRecords
      ensures integrity == if newRecords != [] && Hashing(spec) then Some(!integrityFailed) else old(integrity)
    {
      if |newRecords| == 0 { return; }
      records := records + newRecords;
      if !Hashing(spec) { return; }
      integrity := Some(!integrityFailed);
    }

    method CountRound(later: int, captured: nat)
      modifies `lastSnapshotTime, `attemptCount, `failureCount, `snapshotCount
      ensures lastSnapshotTime == Some(later) && attemptCount == Inc32(old(attemptCount)) && failureCount == 0
      ensures snapshotCount == if captured > 0 then Inc32(old(snapshotCount)) else old(snapshotCount)
    {
      lastSnapshotTime := Some(later);
      attemptCount := Inc32(attemptCount);
      failureCount := 0;
      if captured > 0 { snapshotCount := Inc32(snapshotCount); }
    }

    /** Whether a round that captured this many containers ends the chain. */
    method DecideToStop(captured: nat) returns (reason: Option<Reason>)
      ensures reason == ReasonToStop(spec, Persisted(), captured)
    {
      reason := None;
      if spec.maxSnapshots.Some? {
        var snapshots, limit := snapshotCount, spec.maxSnapshots.value;
        if captured > 0 { snapshots := Inc32(snapshots); }
        if snapshots >= limit {
          reason := Some(MaxSnapshotsReached);
        } else if captured == 0 && spec.maxDuration.None? && Inc32(attemptCount) >= limit {
          reason := Some(NoMatchingPods);
        }
      }
    }

    /** A round's outcome, persisted in one status write. */
    method PersistRound(later: int, captured: nat, newRecords: seq<Record>, integrityFailed: bool)
      returns (completed: bool)
      requires phase.Running?
      modifies this
      ensures Persisted() == AfterCapture(spec, old(Persisted()), later, captured, newRecords, !integrityFailed)
      ensures completed <==> phase.Completed?
    {
      var reason := DecideToStop(captured);
      CountRound(later, captured);
      if captured > 0 {
        if errorMessage != "" && reason.None? { ready := Some(IsRunning); }
        errorMessage := "";
      }
      completed := reason.Some?;
      if completed {
        completionTime := Some(later);
        phase := Completed;
        ready := reason;
      }
      AppendRoundRecords(newRecords, integrityFailed);
    }

    method RecordFailure(p: Pass, message: string)
      requires phase.Running?
      modifies this
      ensures Persisted() == AfterFailure(spec, old(Persisted()), p, message)
    {
      failureCount := Inc32(failureCount);
      errorMessage := message;
      ready := Some(CheckpointError);
      if spec.maxDuration.None? && failureCount >= MAX_CONSECUTIVE_FAILURES {
        phase := Failed;
        completionTime := Some(p.later);
        ready := Some(CheckpointFailed);
      }
    }

    /** The running phase: configuration, deadline, spacing, then one round. */
    method ReconcileRunning(p: Pass) returns (requests: nat, deletes: seq<string>)
      requires phase.Running?
      modifies this
      ensures Result(Persisted(), requests, deletes) == RunningStep(spec, old(Persisted()), p)
    {
      requests, deletes := 0, [];
      if spec.hashAlgorithm != "" && spec.hashAlgorithm != "sha256" {
        if p.writeOk {
          phase := Failed;
          errorMessage := "unsupported hash algorithm: " + spec.hashAlgorithm;
          completionTime := Some(p.now);
          ready := Some(UnsupportedHash);
        }
        return;
      }
      if spec.maxDuration.Some? && startTime.Some? && p.now - startTime.value > spec.maxDuration.value {
        if spec.deletePods && p.pods.None? { return; }
        if !p.writeOk { return; }
        completionTime := Some(p.now);
        phase := Completed;
        ready := Some(MaxDurationReached);
        if spec.deletePods { deletes := ExecutePostSnapshotAction(p.pods.value, snapshotCount, p); }
        return;
      }
      if lastSnapshotTime.Some? && p.now < lastSnapshotTime.value + Interval(spec) { return; }
      if p.pods.None? { return; }
      requests, deletes := ReconcileRound(p);
    }

    method ReconcileRound(p: Pass) returns (requests: nat, deletes: seq<string>)
      requires phase.Running? && p.pods.Some?
      modifies this
      ensures Result(Persisted(), requests, deletes) == RoundStep(spec, old(Persisted()), p)
    {
      deletes := [];
      var failure, captured, newRecords, link, integrityFailed := CaptureRound(p.pods.value, p);
      RoundEnds(Targets(p.pods.value, spec.containerNames), p, records, Hashing(spec), failure, captured, newRecords, link,
                integrityFailed);
      requests := captured;
      if failure.Some? {
        requests := captured + 1;
        if p.writeOk { RecordFailure(p, failure.value); }
        return;
      }
      if !p.writeOk { return; }
      var completed := PersistRound(p.later, captured, newRecords, integrityFailed);
      if completed {
        deletes := ExecutePostSnapshotAction(p.pods.value, snapshotCount, p);
      }
    }

    /** One reconcile pass. */
    method Reconcile(p: Pass) returns (requests: nat, deletes: seq<string>)
      modifies this
      ensures Result(Persisted(), requests, deletes) == Step(spec, old(Persisted()), p)
    {
      requests, deletes := 0, [];
      match phase
      case NoPhase =>
        if p.writeOk {
          phase := Pending;
          startTime := Some(p.now);
          ready := Some(IsPending);
        }
      case Pending =>
        if p.writeOk {
          phase := Running;
          ready := Some(IsRunning);
        }
      case Running => requests, deletes := ReconcileRunning(p);
      case _ =>
    }
  }

  /** What the capture loops amount to: everything up to the first failure. */
  ghost predicate RoundOutcome(ts: seq<Target>, p: Pass, records: seq<Record>, hashing: bool, failure: Option<string>,
                               captured: nat, newRecords: seq<Record>, integrityFailed: bool)
  {
    var k := FirstFailure(p.outcome, |ts|);
    && captured == k
    && failure == (if k < |ts| then Some(p.outcome(k).message) else None)
    && newRecords == RoundRecords(ts, p.outcome, k, |records|, p.now, hashing, LastHash(records))
    && (hashing ==> (integrityFailed <==> !AllHashed(p.outcome, k)))
  }

  /** State of the capture loops after k successful checkpoints. */
  ghost predicate SoFar(ts: seq<Target>, p: Pass, base: nat, hashing: bool, seed: string, k: nat,
                        newRecords: seq<Record>, previousHash: string, integrityFailed: bool)
  {
    && k <= |ts| && (forall i :: 0 <= i < k ==> p.outcome(i).Captured?)
    && newRecords == RoundRecords(ts, p.outcome, k, base, p.now, hashing, seed)
    && (hashing ==> Links(p.outcome, k, seed, previousHash, integrityFailed))
  }

  /** The link for the next record, and whether a checksum has failed. */
  ghost predicate Links(outcome: nat -> Capture, k: nat, seed: string, previousHash: string, integrityFailed: bool) {
    (previousHash, integrityFailed) == (RunningHash(outcome, k, seed), !AllHashed(outcome, k))
  }

  lemma SoFarStep(ts: seq<Target>, p: Pass, base: nat, hashing: bool, seed: string, k: nat,
                  newRecords: seq<Record>, previousHash: string, integrityFailed: bool)
    requires SoFar(ts, p, base, hashing, seed, k, newRecords, previousHash, integrityFailed)
    requires k < |ts| && p.outcome(k).Captured?
    ensures SoFar(ts, p, base, hashing, seed, k + 1,
                  newRecords + [MakeRecord(ts[k], p.outcome(k), base, k, p.now, hashing, previousHash)],
                  if hashing && p.outcome(k).hash.Some? then p.outcome(k).hash.value else previousHash,
                  integrityFailed || (hashing && p.outcome(k).hash.None?))
  {
    assert AllHashed(p.outcome, k + 1) <==> AllHashed(p.outcome, k) && Hashed(p.outcome(k));
  }

  lemma TargetsStep(pods: seq<Pod>, names: seq<string>, i: nat)
    requires i < |pods|
    ensures Targets(pods[..i + 1], names) ==
            Targets(pods[..i], names) + PodTargets(pods[i].name, Selected(pods[i].containers, names))
  {
    assert pods[..i + 1][..i] == pods[..i];
  }

  lemma {:induction false} TargetsMonotone(pods: seq<Pod>, names: seq<string>, i: nat)
    requires i <= |pods|
    ensures Targets(pods[..i], names) <= Targets(pods, names)
    decreases |pods| - i
  {
    if i == |pods| {
      assert pods[..i] == pods;
    } else {
      TargetsStep(pods, names, i);
      TargetsMonotone(pods, names, i + 1);
    }
  }

  /** The targets of a pod follow those of the pods before it. */
  /** The targets from position done on are those of this pod. */
  predicate NextTargets(ts: seq<Target>, done: nat, pod: Pod, names: seq<string>) {
    var sel := Selected(pod.containers, names);
    done + |sel| <= |ts| && ts[done..done + |sel|] == PodTargets(pod.name, sel)
  }

  lemma TargetsPrefix(pods: seq<Pod>, names: seq<string>, i: nat)
    requires i < |pods|
    ensures |Targets(pods[..i + 1], names)| == |Targets(pods[..i], names)| + |Selected(pods[i].containers, names)|
    ensures NextTargets(Targets(pods, names), |Targets(pods[..i], names)|, pods[i], names)
  {
    var head, mine := Targets(pods[..i], names), PodTargets(pods[i].name, Selected(pods[i].containers, names));
    var all := Targets(pods, names);
    TargetsStep(pods, names, i);
    TargetsMonotone(pods, names, i + 1);
    assert all[..|head + mine|] == head + mine;
    assert all[|head|..|head| + |mine|] == (head + mine)[|head|..];
  }

  lemma RoundEnds(ts: seq<Target>, p: Pass, records: seq<Record>, hashing: bool, failure: Option<string>,
                  captured: nat, newRecords: seq<Record>, previousHash: string, integrityFailed: bool)
    requires SoFar(ts, p, |records|, hashing, LastHash(records), captured, newRecords, previousHash, integrityFailed)
    requires failure.None? ==> captured == |ts|
    requires failure.Some? ==> captured < |ts| && p.outcome(captured) == CaptureFailed(failure.value)
    ensures RoundOutcome(ts, p, records, hashing, failure, captured, newRecords, integrityFailed)
  {
    var k := FirstFailure(p.outcome, |ts|);
    assert k == captured;
  }
}
