/** The bound on recorded rounds of a snapshots-only chain is reached: for every limit there is a run
    of exactly 5 * Most(maxSnapshots) recorded rounds. */
module ChainBound {
  import opened Common
  import opened PodSelector
  import opened SnapshotChain
  import opened ChainRuns

  function LimitOnly(m: int): Spec { Spec([], Some(1), Some(m), None, "", false) }

  const ONE_POD := [Pod("pod", "node", ["container"])]

  function FailPass(t: int): Pass { Pass(t, t, Some(ONE_POD), (i: nat) => CaptureFailed("kubelet"), true, (i: nat) => false) }
  function EmptyPass(t: int): Pass { Pass(t, t, Some([]), (i: nat) => CaptureFailed("kubelet"), true, (i: nat) => false) }
  function CapturePass(t: int): Pass { Pass(t, t, Some(ONE_POD), (i: nat) => Captured("archive", None), true, (i: nat) => false) }

  lemma OneTarget()
    ensures |Targets(ONE_POD, [])| == 1
  {
    assert ONE_POD[..0] == [];
    assert Targets(ONE_POD[..0], []) == [];
  }

  /** The run has reached a running status with these counters, and its clock is its length. */
  predicate At(m: int, run: seq<Pass>, snapshots: int, attempts: int, failures: int, rounds: int) {
    var s := After(LimitOnly(m), run);
    && s.phase.Running? && s.snapshotCount == snapshots && s.attemptCount == attempts && s.failureCount == failures
    && (s.lastSnapshotTime.Some? ==> s.lastSnapshotTime.value < |run|)
    && RecordedRounds(LimitOnly(m), run) == rounds
  }

  lemma Extend(m: int, run: seq<Pass>, p: Pass)
    ensures After(LimitOnly(m), run + [p]) == Step(LimitOnly(m), After(LimitOnly(m), run), p).status
    ensures RecordedRounds(LimitOnly(m), run + [p]) ==
            RecordedRounds(LimitOnly(m), run) + (if RecordsRound(LimitOnly(m), After(LimitOnly(m), run), p) then 1 else 0)
  {
    assert (run + [p])[..|run|] == run;
  }

  lemma FailStatus(m: int, s: Status, t: int)
    requires s.phase.Running? && !TooEarly(LimitOnly(m), s, t)
    ensures Step(LimitOnly(m), s, FailPass(t)).status == AfterFailure(LimitOnly(m), s, FailPass(t), "kubelet")
  {
    OneTarget();
    assert FirstFailure(FailPass(t).outcome, 1) == 0;
  }

  lemma CaptureStatus(m: int, s: Status, t: int)
    requires s.phase.Running? && !TooEarly(LimitOnly(m), s, t)
    ensures exists added, hashed ::
              Step(LimitOnly(m), s, CapturePass(t)).status == AfterCapture(LimitOnly(m), s, t, 1, added, hashed)
  {
    OneTarget();
    var p := CapturePass(t);
    assert FirstFailure(p.outcome, 1) == 1;
    assert Step(LimitOnly(m), s, p).status ==
           AfterCapture(LimitOnly(m), s, t, 1, NewRecords(LimitOnly(m), s.records, p), AllHashed(p.outcome, 1));
  }

  lemma EmptyStatus(m: int, s: Status, t: int)
    requires s.phase.Running? && !TooEarly(LimitOnly(m), s, t)
    ensures exists hashed :: Step(LimitOnly(m), s, EmptyPass(t)).status == AfterCapture(LimitOnly(m), s, t, 0, [], hashed)
  {
    var p := EmptyPass(t);
    assert Targets([], []) == [] && FirstFailure(p.outcome, 0) == 0;
    assert NewRecords(LimitOnly(m), s.records, p) == [];
    assert Step(LimitOnly(m), s, p).status == AfterCapture(LimitOnly(m), s, t, 0, [], AllHashed(p.outcome, 0));
  }

  lemma ThenFail(m: int, run: seq<Pass>, sn: int, at: int, f: int, r: int)
    requires At(m, run, sn, at, f, r) && 0 <= f < 5
    ensures f < 4 ==> At(m, run + [FailPass(|run|)], sn, at, f + 1, r + 1)
    ensures f == 4 ==> RecordedRounds(LimitOnly(m), run + [FailPass(|run|)]) == r + 1
  {
    Extend(m, run, FailPass(|run|));
    FailStatus(m, After(LimitOnly(m), run), |run|);
  }

  lemma ThenEmpty(m: int, run: seq<Pass>, sn: int, at: int, f: int, r: int)
    requires At(m, run, sn, at, f, r) && 0 <= sn < m && Inc32(at) < m <= MAX_INT32
    ensures At(m, run + [EmptyPass(|run|)], sn, Inc32(at), 0, r + 1)
  {
    Extend(m, run, EmptyPass(|run|));
    EmptyStatus(m, After(LimitOnly(m), run), |run|);
  }

  lemma ThenCapture(m: int, run: seq<Pass>, sn: int, at: int, f: int, r: int)
    requires At(m, run, sn, at, f, r) && 0 <= sn && sn + 1 < m <= MAX_INT32
    ensures At(m, run + [CapturePass(|run|)], sn + 1, Inc32(at), 0, r + 1)
  {
    Extend(m, run, CapturePass(|run|));
    CaptureStatus(m, After(LimitOnly(m), run), |run|);
  }

  function FourFails(run: seq<Pass>): seq<Pass> {
    var a := run + [FailPass(|run|)];
    var b := a + [FailPass(|a|)];
    var c := b + [FailPass(|b|)];
    c + [FailPass(|c|)]
  }

  lemma ThenFourFails(m: int, run: seq<Pass>, sn: int, at: int, r: int)
    requires At(m, run, sn, at, 0, r)
    ensures At(m, FourFails(run), sn, at, 4, r + 4)
  {
    var a := run + [FailPass(|run|)];
    var b := a + [FailPass(|a|)];
    var c := b + [FailPass(|b|)];
    ThenFail(m, run, sn, at, 0, r);
    ThenFail(m, a, sn, at, 1, r + 1);
    ThenFail(m, b, sn, at, 2, r + 2);
    ThenFail(m, c, sn, at, 3, r + 3);
  }

  lemma StartUp(m: int)
    ensures At(m, [EmptyPass(0), EmptyPass(1)], 0, 0, 0, 0)
  {
    Extend(m, [], EmptyPass(0));
    Extend(m, [EmptyPass(0)], EmptyPass(1));
    assert [] + [EmptyPass(0)] == [EmptyPass(0)];
    assert [EmptyPass(0)] + [EmptyPass(1)] == [EmptyPass(0), EmptyPass(1)];
  }

  /** From any running state every round still possible can be spent: four failures, then an empty
      round while those do not end the chain, else a captured one; at last five failures. */
  lemma {:induction false} SpendAll(m: int, run: seq<Pass>, sn: int, at: int, r: int) returns (full: seq<Pass>)
    requires At(m, run, sn, at, 0, r) && 0 <= sn < m <= MAX_INT32 && Int32(at)
    ensures RecordedRounds(LimitOnly(m), full) == r + 5 * Left(m, sn, at)
    decreases Left(m, sn, at)
  {
    var failed := FourFails(run);
    ThenFourFails(m, run, sn, at, r);
    if Inc32(at) < m {
      LeftDrops(m, sn, at, false);
      ThenEmpty(m, failed, sn, at, 4, r + 4);
      full := SpendAll(m, failed + [EmptyPass(|failed|)], sn, Inc32(at), r + 5);
    } else if sn + 1 < m {
      LeftDrops(m, sn, at, true);
      ThenCapture(m, failed, sn, at, 4, r + 4);
      full := SpendAll(m, failed + [CapturePass(|failed|)], sn + 1, Inc32(at), r + 5);
    } else {
      ThenFail(m, failed, sn, at, 4, r + 4);
      full := failed + [FailPass(|failed|)];
    }
  }

  function NonFailing(m: int, run: seq<Pass>): nat {
    |CapturedRounds(LimitOnly(m), run)| + EmptyRounds(LimitOnly(m), run)
  }

  function CalmPass(captured: bool, t: int): Pass { if captured then CapturePass(t) else EmptyPass(t) }

  lemma {:induction false} CalmStep(m: int, run: seq<Pass>, captured: bool)
    requires After(LimitOnly(m), run).phase.Running? && !TooEarly(LimitOnly(m), After(LimitOnly(m), run), |run|)
    ensures NonFailing(m, run + [CalmPass(captured, |run|)]) == NonFailing(m, run) + 1
  {
    var p := CalmPass(captured, |run|);
    assert (run + [p])[..|run|] == run;
    OneTarget();
    assert Targets([], []) == [];
    assert FirstFailure(CapturePass(|run|).outcome, 1) == 1;
    RoundsStep(LimitOnly(m), After(LimitOnly(m), run), CapturedRounds(LimitOnly(m), run), EmptyRounds(LimitOnly(m), run), p);
  }

  /** All non-failing rounds left can really take place. */
  lemma {:induction false} SpendCalmly(m: int, run: seq<Pass>, sn: int, at: int, r: int) returns (full: seq<Pass>)
    requires At(m, run, sn, at, 0, r) && 0 <= sn < m <= MAX_INT32 && Int32(at)
    ensures NonFailing(m, full) == NonFailing(m, run) + Left(m, sn, at)
    decreases Left(m, sn, at)
  {
    if Inc32(at) < m {
      LeftDrops(m, sn, at, false);
      ThenEmpty(m, run, sn, at, 0, r);
      CalmStep(m, run, false);
      full := SpendCalmly(m, run + [EmptyPass(|run|)], sn, Inc32(at), r + 1);
    } else {
      CalmStep(m, run, true);
      full := run + [CapturePass(|run|)];
      if sn + 1 < m {
        LeftDrops(m, sn, at, true);
        ThenCapture(m, run, sn, at, 0, r);
        full := SpendCalmly(m, full, sn + 1, Inc32(at), r + 1);
      }
    }
  }

  /** The bound on non-failing rounds is tight for every limit. */
  lemma MostIsTight(m: int) returns (run: seq<Pass>)
    requires 1 <= m <= MAX_INT32
    ensures |CapturedRounds(LimitOnly(m), run)| + EmptyRounds(LimitOnly(m), run) == Most(m)
  {
    StartUp(m);
    var start := [EmptyPass(0), EmptyPass(1)];
    assert start[..1] == [EmptyPass(0)] && [EmptyPass(0)][..0] == [];
    assert CapturedRounds(LimitOnly(m), []) == [] && EmptyRounds(LimitOnly(m), []) == 0;
    assert NonFailing(m, [EmptyPass(0)]) == 0;
    assert NonFailing(m, start) == 0;
    run := SpendCalmly(m, start, 0, 0, 0);
  }

  /** Empty rounds up to the limit of attempts, then captured ones: n attempts and still running. */
  lemma {:induction false} ManyAttempts(m: int, n: nat) returns (run: seq<Pass>)
    requires 1073741824 < m <= MAX_INT32 && n <= MAX_INT32
    ensures At(m, run, if n < m then 0 else n - m + 1, n, 0, n)
  {
    if n == 0 {
      StartUp(m);
      run := [EmptyPass(0), EmptyPass(1)];
    } else {
      var init := ManyAttempts(m, n - 1);
      if n < m {
        ThenEmpty(m, init, 0, n - 1, 0, n - 1);
        run := init + [EmptyPass(|init|)];
      } else {
        ThenCapture(m, init, n - m, n - 1, 0, n - 1);
        run := init + [CapturePass(|init|)];
      }
    }
  }

  /** Above 2^30 snapshots the attempt counter can wrap while the chain is running. */
  lemma AttemptsCanWrap(m: int) returns (run: seq<Pass>)
    requires 1073741824 < m <= MAX_INT32
    ensures After(LimitOnly(m), run).phase.Running? && After(LimitOnly(m), run).attemptCount < 0
  {
    var init := ManyAttempts(m, MAX_INT32);
    ThenEmpty(m, init, MAX_INT32 - m + 1, MAX_INT32, 0, MAX_INT32);
    run := init + [EmptyPass(|init|)];
  }

  /** The attempt counter can wrap exactly if maxSnapshots is above 2^30. */
  lemma WrapsExactly(m: int)
    requires 1 <= m <= MAX_INT32
    ensures (exists run :: After(LimitOnly(m), run).attemptCount < 0) <==> m > 1073741824
  {
    if m > 1073741824 {
      var run := AttemptsCanWrap(m);
    } else {
      forall run ensures After(LimitOnly(m), run).attemptCount >= 0 { NeverWraps(LimitOnly(m), m, run); }
    }
  }

  /** The termination bound is tight for every limit. */
  lemma BoundIsTight(m: int) returns (run: seq<Pass>)
    requires 1 <= m <= MAX_INT32
    ensures RecordedRounds(LimitOnly(m), run) == 5 * Most(m)
  {
    StartUp(m);
    run := SpendAll(m, [EmptyPass(0), EmptyPass(1)], 0, 0, 0);
  }
}
