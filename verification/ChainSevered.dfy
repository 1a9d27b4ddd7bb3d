/** A run whose hash chain is broken: a checksum, a round whose checksum fails, another checksum. */
module ChainSevered {
  import opened Common
  import opened SnapshotChain
  import opened ChainRuns
  import opened ChainEvidence
  import opened ChainBound

  const HASHED_CHAIN := Spec([], Some(1), Some(9), None, "sha256", false)

  /** A round of one checkpoint, with this answer of the checksum helper. */
  function HashPass(t: int, hash: Option<string>): Pass {
    Pass(t, t, Some(ONE_POD), (i: nat) => Captured("archive", hash), true, (i: nat) => false)
  }

  /** Running before any round above the limit, with the clock behind it. */
  predicate Going(run: seq<Pass>, rounds: nat) {
    var s := After(HASHED_CHAIN, run);
    s.phase.Running? && s.snapshotCount == rounds && (s.lastSnapshotTime.Some? ==> s.lastSnapshotTime.value < |run|)
  }

  lemma OneCapture(t: int, hash: Option<string>)
    ensures |PassTargets(HASHED_CHAIN, HashPass(t, hash))| == 1 && GoodRound(HASHED_CHAIN, HashPass(t, hash))
  {
    OneTarget();
    assert FirstFailure(HashPass(t, hash).outcome, 1) == 1;
  }

  lemma CapturesNext(s: Status, t: int, hash: Option<string>)
    requires s.phase.Running? && (s.lastSnapshotTime.Some? ==> s.lastSnapshotTime.value < t)
    ensures Captures(HASHED_CHAIN, s, HashPass(t, hash))
  {
    OneCapture(t, hash);
  }

  lemma RoundGoesOn(s: Status, t: int, hash: Option<string>)
    requires Captures(HASHED_CHAIN, s, HashPass(t, hash)) && 0 <= s.snapshotCount < 8
    ensures var s' := Step(HASHED_CHAIN, s, HashPass(t, hash)).status;
            s'.phase.Running? && s'.snapshotCount == s.snapshotCount + 1 && s'.lastSnapshotTime == Some(t)
  {
    OneCapture(t, hash);
    StepCounts(HASHED_CHAIN, s, HashPass(t, hash));
  }

  /** One more captured round. */
  lemma GoOn(run: seq<Pass>, rounds: nat, hash: Option<string>)
    requires Going(run, rounds) && rounds < 8
    ensures Captures(HASHED_CHAIN, After(HASHED_CHAIN, run), HashPass(|run|, hash))
    ensures Going(run + [HashPass(|run|, hash)], rounds + 1)
  {
    assert (run + [HashPass(|run|, hash)])[..|run|] == run;
    CapturesNext(After(HASHED_CHAIN, run), |run|, hash);
    RoundGoesOn(After(HASHED_CHAIN, run), |run|, hash);
  }

  /** Its record carries exactly that hash. */
  lemma RecordOf(run: seq<Pass>, rounds: nat, hash: Option<string>)
    requires Going(run, rounds) && rounds < 8
    ensures var p := HashPass(|run|, hash);
            var before, after := After(HASHED_CHAIN, run).records, After(HASHED_CHAIN, run + [p]).records;
            && after == before + NewRecords(HASHED_CHAIN, before, p) && |after| == |before| + 1
            && LastHash(after) == if hash.Some? then hash.value else ""
  {
    GoOn(run, rounds, hash);
    OneCapture(|run|, hash);
    RoundExtendsChain(HASHED_CHAIN, run, HashPass(|run|, hash));
    BackLinks(HASHED_CHAIN, After(HASHED_CHAIN, run).records, HashPass(|run|, hash), 0);
  }

  lemma Start()
    ensures Going([HashPass(0, None), HashPass(1, None)], 0)
    ensures After(HASHED_CHAIN, [HashPass(0, None), HashPass(1, None)]).records == []
  {
    var run := [HashPass(0, None), HashPass(1, None)];
    assert run[..1] == [HashPass(0, None)] && [HashPass(0, None)][..0] == [];
  }

  /** The run: the third of three captured rounds continues nothing although the first has a checksum. */
  lemma SeveredRun() returns (run: seq<Pass>)
    ensures !Unbroken(After(HASHED_CHAIN, run).records)
  {
    Start();
    var r0 := [HashPass(0, None), HashPass(1, None)];
    var r1 := r0 + [HashPass(|r0|, Some("sum"))];
    var r2 := r1 + [HashPass(|r1|, None)];
    GoOn(r0, 0, Some("sum"));
    GoOn(r1, 1, None);
    RecordOf(r0, 0, Some("sum"));
    RecordOf(r1, 1, None);
    var p := HashPass(|r2|, Some("sum"));
    RecordOf(r2, 2, Some("sum"));
    run := r2 + [p];
    var before, last := After(HASHED_CHAIN, r1).records, After(HASHED_CHAIN, r2).records;
    assert last[..|before|] == before;
    assert LatestHash(last) == "sum" && LastHash(last) == "";
    OneCapture(|r2|, Some("sum"));
    assert Hashed(p.outcome(0)) && SomeHashed(HASHED_CHAIN, p);
    RoundUnbrokenExactly(HASHED_CHAIN, last, p);
  }
}
