/** Whole runs of the ForensicSnapshotChain controller: invariants, termination, the record list, the
    hash links and the final action, for every sequence of reconcile passes. */
module ChainRuns {
  import opened Common
  import opened SnapshotChain

  /** The API server's validation of the capture limits. */
  predicate ValidSpec(spec: Spec) {
    && (spec.maxSnapshots.Some? ==> 1 <= spec.maxSnapshots.value <= MAX_INT32)
    && (spec.maxSnapshots.Some? || spec.maxDuration.Some?)
  }

  /** Persisted status after a sequence of passes on a new object. */
  function After(spec: Spec, passes: seq<Pass>): Status {
    if passes == [] then NEW_STATUS
    else Step(spec, After(spec, passes[..|passes| - 1]), passes[|passes| - 1]).status
  }

  // ---------- what holds in every reachable state ----------

  predicate Shape(spec: Spec, s: Status) {
    && !s.phase.UnknownPhase?
    && (s.phase.NoPhase? ==> s == NEW_STATUS)
    && (s.phase.Pending? ==> s.snapshotCount == s.attemptCount == s.failureCount == 0 && s.records == [])
    && (s.phase.Pending? || s.phase.Running? ==> s.startTime.Some?)
    && (s.phase.Running? && spec.maxSnapshots.Some? ==> 0 <= s.snapshotCount < spec.maxSnapshots.value)
    && (s.phase.Running? && spec.maxDuration.None? ==> 0 <= s.failureCount < MAX_CONSECUTIVE_FAILURES)
  }

  lemma StepKeepsShape(spec: Spec, s: Status, p: Pass)
    requires ValidSpec(spec) && Shape(spec, s)
    ensures Shape(spec, Step(spec, s, p).status)
  {}

  /** In every reachable state: Running has a start time, the snapshot count is below the limit, and
      without a deadline the failure streak is below five. */
  lemma {:induction false} RunningInvariant(spec: Spec, passes: seq<Pass>)
    requires ValidSpec(spec)
    ensures Shape(spec, After(spec, passes))
    decreases |passes|
  {
    if passes != [] {
      var init, p := passes[..|passes| - 1], passes[|passes| - 1];
      RunningInvariant(spec, init);
      StepKeepsShape(spec, After(spec, init), p);
    }
  }

  /** Once the deadline has passed no pass makes a checkpoint request; one that can list and write
      completes the chain, unless its hash algorithm is not supported and it fails. */
  lemma NoCaptureAfterDeadline(spec: Spec, passes: seq<Pass>, p: Pass)
    requires ValidSpec(spec) && spec.maxDuration.Some?
    requires var s := After(spec, passes);
             s.phase.Running? && (s.startTime.Some? ==> p.now - s.startTime.value > spec.maxDuration.value)
    ensures var r := Step(spec, After(spec, passes), p);
            && r.requests == 0
            && (p.writeOk && p.pods.Some? ==>
                  r.status.phase == if spec.hashAlgorithm in {"", "sha256"} then Completed else Failed)
  {
    RunningInvariant(spec, passes);
  }

  // ---------- termination ----------

  predicate Int32(x: int) { -MAX_INT32 - 1 <= x <= MAX_INT32 }

  /** Rounds gained when the attempt counter wraps around: while it is negative or below the limit,
      empty rounds do not end the chain. Each time around costs m .. 2^31 - 1 in captured rounds, of
      which x are to spare. */
  function WrapGain(m: int, x: int): nat
    requires 1 <= m <= MAX_INT32
    decreases x + MAX_INT32
  {
    if x < 0 then 0 else MAX_INT32 + 1 + m + WrapGain(m, x - (MAX_INT32 + 1 - m))
  }

  /** Non-failing rounds still possible with these counters. */
  function Left(m: int, snapshots: int, attempts: int): int
    requires 1 <= m <= MAX_INT32
  {
    var from := if attempts < m - 1 then m - 1 else attempts;
    (m - snapshots) + (from - attempts) + WrapGain(m, (m - snapshots - 1) - (MAX_INT32 - from))
  }

  /** The largest number of non-failing rounds of a chain limited by maxSnapshots m alone. */
  function Most(m: int): int
    requires 1 <= m <= MAX_INT32
  {
    Left(m, 0, 0)
  }

  lemma {:induction false} WrapGainClosed(m: int, x: int, q: nat)
    requires 1 <= m <= MAX_INT32
    requires var g := MAX_INT32 + 1 - m; q * g <= x + g < (q + 1) * g
    ensures WrapGain(m, x) == q * (MAX_INT32 + 1 + m)
    decreases q
  {
    var g := MAX_INT32 + 1 - m;
    assert (q + 1) * g == q * g + g;
    if q > 0 {
      assert (q - 1) * g == q * g - g;
      assert q * g >= g by { assert (q - 1) * g >= 0; }
      WrapGainClosed(m, x - g, q - 1);
      assert (q - 1) * (MAX_INT32 + 1 + m) == q * (MAX_INT32 + 1 + m) - (MAX_INT32 + 1 + m);
    }
  }

  /** The bound in closed form: 2m - 1 and 2^31 + m for each time 2^31 - m goes into m - 1; so it is
      2m - 1 exactly as long as the attempt counter cannot wrap. */
  lemma MostClosed(m: int, q: nat)
    requires 1 <= m <= MAX_INT32
    requires var g := MAX_INT32 + 1 - m; q * g <= m - 1 < (q + 1) * g
    ensures Most(m) == 2 * m - 1 + q * (MAX_INT32 + 1 + m)
    ensures Most(m) == 2 * m - 1 <==> m <= 1073741824
  {
    WrapGainClosed(m, m - 1 - (MAX_INT32 + 1 - m), q);
  }

  lemma {:induction false} WrapGainGrows(m: int, x: int)
    requires 1 <= m <= MAX_INT32
    ensures WrapGain(m, x) <= WrapGain(m, x + 1)
    decreases x + MAX_INT32
  {
    if x >= 0 { WrapGainGrows(m, x - (MAX_INT32 + 1 - m)); }
  }

  /** A non-failing round that leaves the chain running uses up one of the rounds left; an empty one,
      and a captured one beyond the limit of attempts, uses up exactly one. */
  lemma LeftDrops(m: int, snapshots: int, attempts: int, captured: bool)
    requires 0 <= snapshots < m <= MAX_INT32 && Int32(attempts)
    requires if captured then snapshots + 1 < m else Inc32(attempts) < m
    ensures var left := Left(m, if captured then snapshots + 1 else snapshots, Inc32(attempts));
            && 1 <= left < Left(m, snapshots, attempts)
            && (!captured || Inc32(attempts) >= m ==> left == Left(m, snapshots, attempts) - 1)
  {
    WrapGainGrows(m, (m - snapshots - 2) - (MAX_INT32 + 1 - m));
    if captured && attempts < m - 1 { WrapGainGrows(m, (m - snapshots - 2) - (MAX_INT32 - (m - 1))); }
  }

  /** Recorded rounds still possible: each of the non-failing rounds left may be preceded by four
      failures. */
  function Remaining(m: int, s: Status): int
    requires 1 <= m <= MAX_INT32
  {
    5 * Left(m, s.snapshotCount, s.attemptCount) - s.failureCount
  }

  predicate SnapshotsOnly(spec: Spec, m: int) {
    spec.maxSnapshots == Some(m) && spec.maxDuration.None? && 1 <= m <= MAX_INT32
  }

  /** A pass of the running phase that persisted a round. */
  predicate RecordsRound(spec: Spec, s: Status, p: Pass) {
    s.phase.Running? && Step(spec, s, p).status != s
  }

  function RecordedRounds(spec: Spec, passes: seq<Pass>): nat {
    if passes == [] then 0
    else
      var init, p := passes[..|passes| - 1], passes[|passes| - 1];
      RecordedRounds(spec, init) + (if RecordsRound(spec, After(spec, init), p) then 1 else 0)
  }

  predicate Budgeted(spec: Spec, s: Status) { Shape(spec, s) && Int32(s.attemptCount) }

  /** What a pass of the running phase may leave running. */
  lemma RunningCases(spec: Spec, m: int, s: Status, p: Pass)
    requires SnapshotsOnly(spec, m) && Budgeted(spec, s) && s.phase.Running?
    ensures var s' := Step(spec, s, p).status;
            s'.phase.Running? && s' != s ==>
              || (s'.snapshotCount == s.snapshotCount && s'.attemptCount == s.attemptCount &&
                  s'.failureCount == s.failureCount + 1)
              || (s'.snapshotCount == s.snapshotCount && s'.attemptCount == Inc32(s.attemptCount) < m && s'.failureCount == 0)
              || (s'.snapshotCount == s.snapshotCount + 1 < m && s'.attemptCount == Inc32(s.attemptCount) && s'.failureCount == 0)
  {}

  /** Every recorded round that leaves the chain running uses up part of the budget. */
  lemma RoundUsesBudget(spec: Spec, m: int, s: Status, p: Pass)
    requires SnapshotsOnly(spec, m) && Budgeted(spec, s) && s.phase.Running?
    ensures Remaining(m, s) >= 1
    ensures var s' := Step(spec, s, p).status;
            RecordsRound(spec, s, p) && s'.phase.Running? ==> 1 <= Remaining(m, s') < Remaining(m, s)
  {
    RunningCases(spec, m, s, p);
    StepKeepsShape(spec, s, p);
    var s' := Step(spec, s, p).status;
    if RecordsRound(spec, s, p) && s'.phase.Running? && s'.failureCount == 0 {
      LeftDrops(m, s.snapshotCount, s.attemptCount, s'.snapshotCount > s.snapshotCount);
    }
  }

  lemma StepKeepsInt32(spec: Spec, s: Status, p: Pass)
    requires Int32(s.attemptCount)
    ensures Int32(Step(spec, s, p).status.attemptCount)
  {
    StepCounts(spec, s, p);
  }

  /** What a run has recorded and may still record. */
  predicate WithinBudget(spec: Spec, m: int, s: Status, recorded: nat)
    requires 1 <= m <= MAX_INT32
  {
    && recorded <= 5 * Most(m)
    && (s.phase.Running? ==> 1 <= Remaining(m, s) && recorded + Remaining(m, s) <= 5 * Most(m))
    && (s.phase.NoPhase? || s.phase.Pending? ==> recorded == 0)
  }

  lemma BudgetStep(spec: Spec, m: int, s: Status, p: Pass, recorded: nat)
    requires SnapshotsOnly(spec, m) && Budgeted(spec, s) && WithinBudget(spec, m, s, recorded)
    ensures WithinBudget(spec, m, Step(spec, s, p).status, recorded + if RecordsRound(spec, s, p) then 1 else 0)
  {
    if s.phase.Running? { RoundUsesBudget(spec, m, s, p); }
  }

  /** A chain limited by maxSnapshots m alone records at most 5 * Most(m) rounds. */
  lemma {:induction false} RoundsBounded(spec: Spec, m: int, passes: seq<Pass>)
    requires SnapshotsOnly(spec, m)
    ensures Budgeted(spec, After(spec, passes))
    ensures WithinBudget(spec, m, After(spec, passes), RecordedRounds(spec, passes))
    decreases |passes|
  {
    if passes != [] {
      var init, p := passes[..|passes| - 1], passes[|passes| - 1];
      RoundsBounded(spec, m, init);
      var s := After(spec, init);
      StepKeepsShape(spec, s, p);
      StepKeepsInt32(spec, s, p);
      BudgetStep(spec, m, s, p, RecordedRounds(spec, init));
    }
  }

  /** A pass that is not held up from outside: the list call and the write succeed, and the interval
      since the last round is over. */
  predicate Unhindered(spec: Spec, s: Status, p: Pass) {
    p.writeOk && p.pods.Some? && Rested(spec, s, p.now)
  }

  /** The interval, 30 seconds unless the spec has one, is over. */
  predicate Rested(spec: Spec, s: Status, now: int) {
    s.lastSnapshotTime.Some? ==> now >= s.lastSnapshotTime.value + if spec.interval.Some? then spec.interval.value else 30
  }

  predicate Overdue(spec: Spec, s: Status, now: int) {
    spec.maxDuration.Some? && s.startTime.Some? && now - s.startTime.value > spec.maxDuration.value
  }

  lemma UnhinderedPassAdvances(spec: Spec, s: Status, p: Pass)
    requires !Terminal(s.phase) && !s.phase.UnknownPhase? && Unhindered(spec, s, p)
    ensures Step(spec, s, p).status != s
    ensures !s.phase.Running? ==> Step(spec, s, p).status.phase == (if s.phase.NoPhase? then Pending else Running)
  {}

  function Started(s: Status): nat { if s.phase.NoPhase? then 0 else if s.phase.Pending? then 1 else 2 }

  lemma {:induction false} UnhinderedRunCounts(spec: Spec, m: int, passes: seq<Pass>)
    requires SnapshotsOnly(spec, m)
    requires forall k :: 0 <= k < |passes| ==> Unhindered(spec, After(spec, passes[..k]), passes[k])
    requires !Terminal(After(spec, passes).phase)
    ensures |passes| <= Started(After(spec, passes)) + RecordedRounds(spec, passes)
    decreases |passes|
  {
    RoundsBounded(spec, m, passes);
    if passes != [] {
      var n := |passes| - 1;
      var init, p := passes[..n], passes[n];
      forall k | 0 <= k < |init| ensures Unhindered(spec, After(spec, init[..k]), init[k]) {
        assert init[..k] == passes[..k];
      }
      RoundsBounded(spec, m, init);
      UnhinderedRunCounts(spec, m, init);
      assert Unhindered(spec, After(spec, passes[..n]), passes[n]);
      UnhinderedPassAdvances(spec, After(spec, init), p);
    }
  }

  /** Termination: any mix of capturing, empty and failing rounds ends the chain. */
  lemma AlwaysEnds(spec: Spec, m: int, passes: seq<Pass>)
    requires SnapshotsOnly(spec, m)
    requires forall k :: 0 <= k < |passes| ==> Unhindered(spec, After(spec, passes[..k]), passes[k])
    requires |passes| >= 2 + 5 * Most(m)
    ensures Terminal(After(spec, passes).phase)
  {
    RoundsBounded(spec, m, passes);
    if !Terminal(After(spec, passes).phase) {
      UnhinderedRunCounts(spec, m, passes);
    }
  }

  // ---------- captured and empty rounds ----------

  /** The pass gets to a round. */
  predicate Due(spec: Spec, s: Status, p: Pass) {
    && s.phase.Running? && p.pods.Some? && spec.hashAlgorithm in {"", "sha256"}
    && !Overdue(spec, s, p.now) && Rested(spec, s, p.now)
  }

  /** No checkpoint of the round fails. */
  predicate AllCaptured(spec: Spec, p: Pass) {
    forall i :: 0 <= i < |PassTargets(spec, p)| ==> p.outcome(i).Captured?
  }

  /** The pass gets to a round, the round does not fail, and it is persisted. */
  predicate CleanRound(spec: Spec, s: Status, p: Pass) { Due(spec, s, p) && p.writeOk && AllCaptured(spec, p) }

  predicate Captures(spec: Spec, s: Status, p: Pass) {
    CleanRound(spec, s, p) && PassTargets(spec, p) != []
  }

  function NextRounds(spec: Spec, s: Status, rounds: seq<Pass>, p: Pass): seq<Pass> {
    if Captures(spec, s, p) then rounds + [p] else rounds
  }

  function NextEmpty(spec: Spec, s: Status, empty: nat, p: Pass): nat {
    if CleanRound(spec, s, p) && !Captures(spec, s, p) then empty + 1 else empty
  }

  /** The passes of a run that persisted captured rounds. */
  function CapturedRounds(spec: Spec, passes: seq<Pass>): seq<Pass> {
    if passes == [] then []
    else
      var init, p := passes[..|passes| - 1], passes[|passes| - 1];
      NextRounds(spec, After(spec, init), CapturedRounds(spec, init), p)
  }

  /** How many passes of a run persisted a round without targets. */
  function EmptyRounds(spec: Spec, passes: seq<Pass>): nat {
    if passes == [] then 0
    else
      var init, p := passes[..|passes| - 1], passes[|passes| - 1];
      NextEmpty(spec, After(spec, init), EmptyRounds(spec, init), p)
  }

  /** What one pass does to the two round counters and to the record list. */
  lemma StepCounts(spec: Spec, s: Status, p: Pass)
    ensures var s' := Step(spec, s, p).status;
            && s'.snapshotCount == (if Captures(spec, s, p) then Inc32(s.snapshotCount) else s.snapshotCount)
            && s'.attemptCount == (if CleanRound(spec, s, p) then Inc32(s.attemptCount) else s.attemptCount)
            && s'.records == if Captures(spec, s, p) then s.records + NewRecords(spec, s.records, p) else s.records
  {
    if CleanRound(spec, s, p) && !Captures(spec, s, p) {
      assert NewRecords(spec, s.records, p) == [];
    }
  }

  /** The passes are captured rounds that did not fail. */
  predicate RoundPasses(spec: Spec, rounds: seq<Pass>) {
    forall k :: 0 <= k < |rounds| ==> GoodRound(spec, rounds[k])
  }

  predicate GoodRound(spec: Spec, p: Pass) {
    PassTargets(spec, p) != [] && AllCaptured(spec, p)
  }

  /** The record list that a sequence of captured rounds leaves. */
  function RecordsOf(spec: Spec, rounds: seq<Pass>): seq<Record> {
    if rounds == [] then []
    else
      var before := RecordsOf(spec, rounds[..|rounds| - 1]);
      before + NewRecords(spec, before, rounds[|rounds| - 1])
  }

  lemma RecordsGrow(spec: Spec, rounds: seq<Pass>, p: Pass)
    ensures RecordsOf(spec, rounds + [p]) == RecordsOf(spec, rounds) + NewRecords(spec, RecordsOf(spec, rounds), p)
  {
    assert (rounds + [p])[..|rounds|] == rounds;
  }

  predicate CountsRounds(s: Status, captured: nat, empty: nat) {
    s.snapshotCount == ToInt32(captured) && s.attemptCount == ToInt32(captured + empty)
  }

  lemma CountStep(spec: Spec, s: Status, rounds: seq<Pass>, empty: nat, p: Pass)
    requires CountsRounds(s, |rounds|, empty)
    ensures CountsRounds(Step(spec, s, p).status, |NextRounds(spec, s, rounds, p)|, NextEmpty(spec, s, empty, p))
  {
    StepCounts(spec, s, p);
  }

  lemma RecordStep(spec: Spec, s: Status, rounds: seq<Pass>, p: Pass)
    requires s.records == RecordsOf(spec, rounds)
    ensures Step(spec, s, p).status.records == RecordsOf(spec, NextRounds(spec, s, rounds, p))
  {
    StepCounts(spec, s, p);
    RecordsGrow(spec, rounds, p);
  }

  lemma GoodStep(spec: Spec, s: Status, rounds: seq<Pass>, p: Pass)
    requires RoundPasses(spec, rounds)
    ensures RoundPasses(spec, NextRounds(spec, s, rounds, p))
  {
    if Captures(spec, s, p) {
      forall k | 0 <= k < |rounds + [p]| ensures GoodRound(spec, (rounds + [p])[k]) {
        if k < |rounds| { assert GoodRound(spec, rounds[k]); }
      }
    }
  }

  /** The counters are the numbers of captured and of non-failing rounds, as int32. */
  lemma {:induction false} CountersMeanRounds(spec: Spec, passes: seq<Pass>)
    ensures CountsRounds(After(spec, passes), |CapturedRounds(spec, passes)|, EmptyRounds(spec, passes))
    decreases |passes|
  {
    if passes != [] {
      var init, p := passes[..|passes| - 1], passes[|passes| - 1];
      CountersMeanRounds(spec, init);
      CountStep(spec, After(spec, init), CapturedRounds(spec, init), EmptyRounds(spec, init), p);
    }
  }

  /** An int32 counter shows its true value exactly until it wraps. */
  lemma ToInt32Exact(n: nat)
    ensures ToInt32(n) == n <==> n <= MAX_INT32
  {
    if n <= MAX_INT32 { ToInt32Small(n); } else { ToInt32Wraps(n); }
  }

  lemma OrderedUntilWrap(s: Status, captured: nat, empty: nat)
    requires CountsRounds(s, captured, empty)
    ensures s.attemptCount == captured + empty <==> captured + empty <= MAX_INT32
    ensures captured + empty <= MAX_INT32 ==> 0 <= s.snapshotCount <= s.attemptCount
  {
    ToInt32Exact(captured + empty);
    ToInt32Exact(captured);
  }

  /** The attempt counter shows the number of non-failing rounds exactly until it wraps, and until
      then captured rounds are attempts. */
  lemma CountersOrdered(spec: Spec, passes: seq<Pass>)
    ensures var s, rounds := After(spec, passes), |CapturedRounds(spec, passes)| + EmptyRounds(spec, passes);
            && (s.attemptCount == rounds <==> rounds <= MAX_INT32)
            && (rounds <= MAX_INT32 ==> 0 <= s.snapshotCount <= s.attemptCount)
  {
    CountersMeanRounds(spec, passes);
    OrderedUntilWrap(After(spec, passes), |CapturedRounds(spec, passes)|, EmptyRounds(spec, passes));
  }

  /** What a run has used up of the non-failing rounds, and what is left of them. */
  predicate WithinMost(m: int, s: Status, rounds: nat)
    requires 1 <= m <= MAX_INT32
  {
    rounds <= Most(m) && (s.phase.Running? ==> rounds + Left(m, s.snapshotCount, s.attemptCount) <= Most(m)) &&
    (s.phase.NoPhase? || s.phase.Pending? ==> rounds == 0)
  }

  lemma LeftPositive(m: int, snapshots: int, attempts: int)
    requires snapshots < m && 1 <= m <= MAX_INT32
    ensures Left(m, snapshots, attempts) >= 1
  {}

  lemma RoundsStep(spec: Spec, s: Status, rounds: seq<Pass>, empty: nat, p: Pass)
    ensures |NextRounds(spec, s, rounds, p)| + NextEmpty(spec, s, empty, p) ==
            |rounds| + empty + if CleanRound(spec, s, p) then 1 else 0
  {}

  /** A clean round that leaves the chain running is one of the two kinds. */
  lemma CleanRunning(spec: Spec, m: int, s: Status, p: Pass)
    requires SnapshotsOnly(spec, m) && Budgeted(spec, s) && CleanRound(spec, s, p)
    requires Step(spec, s, p).status.phase.Running?
    ensures if Captures(spec, s, p) then s.snapshotCount + 1 < m else Inc32(s.attemptCount) < m
    ensures var s' := Step(spec, s, p).status;
            && s'.attemptCount == Inc32(s.attemptCount)
            && s'.snapshotCount == if Captures(spec, s, p) then s.snapshotCount + 1 else s.snapshotCount
  {
    StepCounts(spec, s, p);
    StepKeepsShape(spec, s, p);
    RunningCases(spec, m, s, p);
  }

  lemma MostStepRunning(spec: Spec, m: int, s: Status, p: Pass, rounds: nat)
    requires SnapshotsOnly(spec, m) && Budgeted(spec, s) && s.phase.Running? && WithinMost(m, s, rounds)
    ensures WithinMost(m, Step(spec, s, p).status, rounds + if CleanRound(spec, s, p) then 1 else 0)
  {
    LeftPositive(m, s.snapshotCount, s.attemptCount);
    StepStaysStarted(spec, s, p);
    if Step(spec, s, p).status.phase.Running? {
      if CleanRound(spec, s, p) {
        CleanRunning(spec, m, s, p);
        LeftDrops(m, s.snapshotCount, s.attemptCount, Captures(spec, s, p));
      } else {
        StepCounts(spec, s, p);
      }
    }
  }

  lemma StepStaysStarted(spec: Spec, s: Status, p: Pass)
    requires s.phase.Running?
    ensures !Step(spec, s, p).status.phase.NoPhase? && !Step(spec, s, p).status.phase.Pending?
  {}

  lemma MostStepIdle(spec: Spec, m: int, s: Status, p: Pass, rounds: nat)
    requires SnapshotsOnly(spec, m) && Budgeted(spec, s) && !s.phase.Running? && WithinMost(m, s, rounds)
    ensures WithinMost(m, Step(spec, s, p).status, rounds)
  {}

  /** In every run of a chain limited by maxSnapshots m alone there are at most Most(m) non-failing
      rounds. */
  lemma {:induction false} NonFailingBounded(spec: Spec, m: int, passes: seq<Pass>)
    requires SnapshotsOnly(spec, m)
    ensures WithinMost(m, After(spec, passes), |CapturedRounds(spec, passes)| + EmptyRounds(spec, passes))
    decreases |passes|
  {
    if passes != [] {
      var init, p := passes[..|passes| - 1], passes[|passes| - 1];
      NonFailingBounded(spec, m, init);
      RoundsBounded(spec, m, init);
      var s := After(spec, init);
      RoundsStep(spec, s, CapturedRounds(spec, init), EmptyRounds(spec, init), p);
      if s.phase.Running? {
        MostStepRunning(spec, m, s, p, |CapturedRounds(spec, init)| + EmptyRounds(spec, init));
      } else {
        MostStepIdle(spec, m, s, p, |CapturedRounds(spec, init)| + EmptyRounds(spec, init));
      }
    }
  }

  /** Up to 2^30 snapshots no counter of such a chain ever wraps: in every run they are the numbers of
      captured and of non-failing rounds. */
  lemma NeverWraps(spec: Spec, m: int, passes: seq<Pass>)
    requires SnapshotsOnly(spec, m) && m <= 1073741824
    ensures var s := After(spec, passes);
            && s.snapshotCount == |CapturedRounds(spec, passes)|
            && s.attemptCount == |CapturedRounds(spec, passes)| + EmptyRounds(spec, passes)
  {
    FewRounds(spec, m, passes);
    CountersOrdered(spec, passes);
    SnapshotsExact(spec, passes);
  }

  lemma FewRounds(spec: Spec, m: int, passes: seq<Pass>)
    requires SnapshotsOnly(spec, m) && m <= 1073741824
    ensures |CapturedRounds(spec, passes)| + EmptyRounds(spec, passes) <= MAX_INT32
  {
    NonFailingBounded(spec, m, passes);
    MostClosed(m, 0);
  }

  /** The pass gets to a round and one of its checkpoints fails. */
  predicate FailedRound(spec: Spec, s: Status, p: Pass) { Due(spec, s, p) && p.writeOk && !AllCaptured(spec, p) }

  /** Failed rounds since the last round that did not fail. */
  function Streak(spec: Spec, passes: seq<Pass>): nat {
    if passes == [] then 0
    else
      var init, p := passes[..|passes| - 1], passes[|passes| - 1];
      if CleanRound(spec, After(spec, init), p) then 0
      else Streak(spec, init) + if FailedRound(spec, After(spec, init), p) then 1 else 0
  }

  lemma StepFailures(spec: Spec, s: Status, p: Pass)
    ensures Step(spec, s, p).status.failureCount ==
            if CleanRound(spec, s, p) then 0
            else if FailedRound(spec, s, p) then Inc32(s.failureCount)
            else s.failureCount
  {}

  /** The failure counter is the current streak of failed rounds, as int32. */
  lemma {:induction false} FailuresAreStreak(spec: Spec, passes: seq<Pass>)
    ensures After(spec, passes).failureCount == ToInt32(Streak(spec, passes))
    decreases |passes|
  {
    if passes != [] {
      var init, p := passes[..|passes| - 1], passes[|passes| - 1];
      FailuresAreStreak(spec, init);
      StepFailures(spec, After(spec, init), p);
    }
  }

  /** Under maxSnapshots the snapshot counter never wraps. */
  lemma {:induction false} SnapshotsExact(spec: Spec, passes: seq<Pass>)
    requires ValidSpec(spec) && spec.maxSnapshots.Some?
    ensures After(spec, passes).snapshotCount == |CapturedRounds(spec, passes)|
    decreases |passes|
  {
    if passes != [] {
      var init, p := passes[..|passes| - 1], passes[|passes| - 1];
      SnapshotsExact(spec, init);
      RunningInvariant(spec, init);
      StepCounts(spec, After(spec, init), p);
    }
  }

  /** The record list is append-only and holds exactly the captured rounds, so a round that fails
      part way leaves nothing. */
  lemma {:induction false} RecordsAreRounds(spec: Spec, passes: seq<Pass>)
    ensures RoundPasses(spec, CapturedRounds(spec, passes))
    ensures After(spec, passes).records == RecordsOf(spec, CapturedRounds(spec, passes))
    decreases |passes|
  {
    if passes != [] {
      var init, p := passes[..|passes| - 1], passes[|passes| - 1];
      RecordsAreRounds(spec, init);
      RecordStep(spec, After(spec, init), CapturedRounds(spec, init), p);
      GoodStep(spec, After(spec, init), CapturedRounds(spec, init), p);
    }
  }

  predicate DoneBy(spec: Spec, s: Status) {
    s.phase.Completed? ==>
      || (s.ready == Some(MaxDurationReached) && spec.maxDuration.Some? &&
          (spec.maxSnapshots.Some? ==> s.snapshotCount < spec.maxSnapshots.value))
      || (s.ready == Some(MaxSnapshotsReached) && spec.maxSnapshots == Some(s.snapshotCount))
      || (s.ready == Some(NoMatchingPods) && spec.maxSnapshots.Some? && spec.maxDuration.None? &&
          s.snapshotCount < spec.maxSnapshots.value <= s.attemptCount)
  }

  lemma DoneStep(spec: Spec, s: Status, p: Pass)
    requires ValidSpec(spec) && Shape(spec, s) && DoneBy(spec, s)
    ensures DoneBy(spec, Step(spec, s, p).status)
  {}

  lemma {:induction false} CompletionReasons(spec: Spec, passes: seq<Pass>)
    requires ValidSpec(spec)
    ensures DoneBy(spec, After(spec, passes))
    decreases |passes|
  {
    if passes != [] {
      var init, p := passes[..|passes| - 1], passes[|passes| - 1];
      CompletionReasons(spec, init);
      RunningInvariant(spec, init);
      DoneStep(spec, After(spec, init), p);
    }
  }

  /** A chain that completes before its deadline and never met an empty round has captured exactly
      maxSnapshots rounds. */
  lemma CompletesWithAllSnapshots(spec: Spec, passes: seq<Pass>)
    requires ValidSpec(spec)
    requires After(spec, passes).phase.Completed? && After(spec, passes).ready != Some(MaxDurationReached)
    requires EmptyRounds(spec, passes) == 0
    ensures spec.maxSnapshots == Some(|CapturedRounds(spec, passes)|)
  {
    CompletionReasons(spec, passes);
    CountersMeanRounds(spec, passes);
    SnapshotsExact(spec, passes);
  }

  // ---------- the record list ----------

  /** All selected (pod, container) pairs of the rounds, one round after the other. */
  function AllTargets(spec: Spec, rounds: seq<Pass>): seq<Target> {
    if rounds == [] then [] else AllTargets(spec, rounds[..|rounds| - 1]) + PassTargets(spec, rounds[|rounds| - 1])
  }

  function PassTargets(spec: Spec, p: Pass): seq<Target> {
    if p.pods.Some? then Targets(p.pods.value, spec.containerNames) else []
  }

  lemma {:induction false} RoundRecordsAt(ts: seq<Target>, outcome: nat -> Capture, k: nat, base: nat, time: int,
                                          hashing: bool, seed: string, i: nat)
    requires i < k <= |ts| && forall j :: 0 <= j < k ==> outcome(j).Captured?
    ensures RoundRecords(ts, outcome, k, base, time, hashing, seed)[i] ==
            MakeRecord(ts[i], outcome(i), base, i, time, hashing, RunningHash(outcome, i, seed))
    decreases k
  {
    if i < k - 1 { RoundRecordsAt(ts, outcome, k - 1, base, time, hashing, seed, i); }
  }

  /** The records are those of the targets, in order, and every index is the record's position. */
  predicate Enumerates(rs: seq<Record>, ts: seq<Target>, base: nat) {
    |rs| == |ts| &&
    forall i :: 0 <= i < |rs| ==> Target(rs[i].pod, rs[i].container) == ts[i] && rs[i].index == ToInt32(base + i)
  }

  lemma EnumeratesConcat(rs: seq<Record>, ts: seq<Target>, rs': seq<Record>, ts': seq<Target>)
    requires Enumerates(rs, ts, 0) && Enumerates(rs', ts', |rs|)
    ensures Enumerates(rs + rs', ts + ts', 0)
  {
    forall i | 0 <= i < |rs + rs'|
      ensures Target((rs + rs')[i].pod, (rs + rs')[i].container) == (ts + ts')[i] && (rs + rs')[i].index == ToInt32(i)
    {
      if i >= |rs| { assert (rs + rs')[i] == rs'[i - |rs|]; }
    }
  }

  lemma NewRecordsEnumerate(spec: Spec, before: seq<Record>, p: Pass)
    requires GoodRound(spec, p)
    ensures Enumerates(NewRecords(spec, before, p), PassTargets(spec, p), |before|)
  {
    var ts := PassTargets(spec, p);
    forall i | 0 <= i < |ts|
      ensures var r := NewRecords(spec, before, p)[i];
              Target(r.pod, r.container) == ts[i] && r.index == ToInt32(|before| + i)
    {
      RoundRecordsAt(ts, p.outcome, |ts|, |before|, p.now, Hashing(spec), LastHash(before), i);
    }
  }

  /** Blocks: the record list enumerates the targets of the captured rounds, round after round. */
  lemma {:induction false} RecordsEnumerateTargets(spec: Spec, rounds: seq<Pass>)
    requires RoundPasses(spec, rounds)
    ensures Enumerates(RecordsOf(spec, rounds), AllTargets(spec, rounds), 0)
    ensures |RecordsOf(spec, rounds)| >= |rounds|
    decreases |rounds|
  {
    if rounds != [] {
      var init, p := rounds[..|rounds| - 1], rounds[|rounds| - 1];
      RecordsEnumerateTargets(spec, init);
      assert GoodRound(spec, p);
      NewRecordsEnumerate(spec, RecordsOf(spec, init), p);
      EnumeratesConcat(RecordsOf(spec, init), AllTargets(spec, init), NewRecords(spec, RecordsOf(spec, init), p),
                       PassTargets(spec, p));
    }
  }

  /** In every run each captured round is a full block of records; the snapshot counter is their number
      exactly until it wraps, and always under maxSnapshots. */
  lemma RecordBlocks(spec: Spec, passes: seq<Pass>)
    ensures RoundPasses(spec, CapturedRounds(spec, passes))
    ensures Enumerates(After(spec, passes).records, AllTargets(spec, CapturedRounds(spec, passes)), 0)
    ensures |CapturedRounds(spec, passes)| <= |After(spec, passes).records|
    ensures After(spec, passes).snapshotCount == |CapturedRounds(spec, passes)| <==> |CapturedRounds(spec, passes)| <= MAX_INT32
    ensures ValidSpec(spec) && spec.maxSnapshots.Some? ==> |CapturedRounds(spec, passes)| <= MAX_INT32
  {
    RecordsAreRounds(spec, passes);
    RecordsEnumerateTargets(spec, CapturedRounds(spec, passes));
    CountersMeanRounds(spec, passes);
    ToInt32Exact(|CapturedRounds(spec, passes)|);
    if ValidSpec(spec) && spec.maxSnapshots.Some? { SnapshotsExact(spec, passes); }
  }
}
