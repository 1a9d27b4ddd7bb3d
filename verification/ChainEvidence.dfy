/** The evidence a ForensicSnapshotChain leaves: how its records are linked by hash, and that pods are
    deleted only when, and after, evidence is persisted. */
module ChainEvidence {
  import opened PodSelector
  import opened SnapshotChain
  import opened ChainRuns

  // ---------- hash links ----------

  /** i is the nearest hashed capture before j. */
  predicate NearestHashed(outcome: nat -> Capture, i: nat, j: nat) {
    i < j && Hashed(outcome(i)) && forall m :: i < m < j ==> !Hashed(outcome(m))
  }

  predicate NoneHashed(outcome: nat -> Capture, j: nat) {
    forall i :: 0 <= i < j ==> !Hashed(outcome(i))
  }

  lemma {:induction false} RunningHashIsNearest(outcome: nat -> Capture, j: nat, seed: string)
    ensures forall i :: NearestHashed(outcome, i, j) ==> RunningHash(outcome, j, seed) == outcome(i).hash.value
    ensures NoneHashed(outcome, j) ==> RunningHash(outcome, j, seed) == seed
  {
    if j > 0 {
      RunningHashIsNearest(outcome, j - 1, seed);
      forall i: nat | NearestHashed(outcome, i, j) ensures RunningHash(outcome, j, seed) == outcome(i).hash.value {
        if i < j - 1 {
          assert !Hashed(outcome(j - 1));
          assert NearestHashed(outcome, i, j - 1);
        }
      }
    }
  }

  lemma NewRecordAt(spec: Spec, before: seq<Record>, p: Pass, j: nat)
    requires GoodRound(spec, p) && j < |PassTargets(spec, p)|
    ensures |NewRecords(spec, before, p)| == |PassTargets(spec, p)| && p.outcome(j).Captured?
    ensures NewRecords(spec, before, p)[j] ==
            MakeRecord(PassTargets(spec, p)[j], p.outcome(j), |before|, j, p.now, Hashing(spec),
                       RunningHash(p.outcome, j, LastHash(before)))
  {
    var ts := PassTargets(spec, p);
    RoundRecordsAt(ts, p.outcome, |ts|, |before|, p.now, Hashing(spec), LastHash(before), j);
  }

  /** A hashed record links to the nearest earlier hashed record of its own round or, if there is
      none, to whatever hash the last record persisted before the round carries. A record whose
      checksum failed carries neither hash nor link. */
  lemma BackLinks(spec: Spec, before: seq<Record>, p: Pass, j: nat)
    requires GoodRound(spec, p) && Hashing(spec) && j < |PassTargets(spec, p)|
    ensures var block := NewRecords(spec, before, p);
            && |block| == |PassTargets(spec, p)|
            && (!Hashed(p.outcome(j)) ==> block[j].hash == "" && block[j].previousHash == "")
            && (Hashed(p.outcome(j)) ==> block[j].hash == p.outcome(j).hash.value)
            && (Hashed(p.outcome(j)) && NoneHashed(p.outcome, j) ==> block[j].previousHash == LastHash(before))
            && forall i: nat :: Hashed(p.outcome(j)) && NearestHashed(p.outcome, i, j) ==>
                 block[j].previousHash == block[i].hash
  {
    NewRecordAt(spec, before, p, j);
    RunningHashIsNearest(p.outcome, j, LastHash(before));
    forall i: nat | NearestHashed(p.outcome, i, j)
      ensures NewRecords(spec, before, p)[i].hash == p.outcome(i).hash.value
    {
      NewRecordAt(spec, before, p, i);
    }
  }

  /** A record names its target, carries the time of the pass, the archive that was written and its
      position, and without sha256 neither hash nor link. */
  lemma RecordTells(spec: Spec, before: seq<Record>, p: Pass, j: nat)
    requires GoodRound(spec, p) && j < |PassTargets(spec, p)|
    ensures |NewRecords(spec, before, p)| == |PassTargets(spec, p)| && p.outcome(j).Captured?
    ensures var r := NewRecords(spec, before, p)[j];
            && Target(r.pod, r.container) == PassTargets(spec, p)[j] && r.index == ToInt32(|before| + j)
            && r.time == p.now && r.path == p.outcome(j).path
            && (spec.hashAlgorithm != "sha256" ==> r.hash == r.previousHash == "")
  {
    NewRecordAt(spec, before, p, j);
  }

  /** In every run a captured round adds exactly such a block behind the records persisted so far,
      which never change again. */
  lemma RoundExtendsChain(spec: Spec, passes: seq<Pass>, p: Pass)
    ensures After(spec, passes + [p]).records ==
            if Captures(spec, After(spec, passes), p)
            then After(spec, passes).records + NewRecords(spec, After(spec, passes).records, p)
            else After(spec, passes).records
    ensures Captures(spec, After(spec, passes), p) ==> GoodRound(spec, p)
  {
    assert (passes + [p])[..|passes|] == passes;
    StepCounts(spec, After(spec, passes), p);
  }

  /** Consequence: after a round whose last checksum failed, the next round starts a new chain. */
  lemma FailedChecksumSevers(spec: Spec, before: seq<Record>, p: Pass, q: Pass, j: nat)
    requires GoodRound(spec, p) && GoodRound(spec, q) && Hashing(spec) && j < |PassTargets(spec, q)|
    requires !Hashed(p.outcome(|PassTargets(spec, p)| - 1))
    requires Hashed(q.outcome(j)) && NoneHashed(q.outcome, j)
    ensures NewRecords(spec, before + NewRecords(spec, before, p), q)[j].previousHash == ""
  {
    BackLinks(spec, before, p, |PassTargets(spec, p)| - 1);
    BackLinks(spec, before + NewRecords(spec, before, p), q, j);
  }

  /** Every record links to the hash of the record in front of it. */
  predicate Linked(rs: seq<Record>) {
    forall n :: 0 <= n < |rs| ==> LinksBack(rs, n)
  }

  predicate LinksBack(rs: seq<Record>, n: nat)
    requires n < |rs|
  {
    rs[n].previousHash == LastHash(rs[..n])
  }

  predicate FullyHashed(spec: Spec, p: Pass) {
    AllHashed(p.outcome, |PassTargets(spec, p)|)
  }

  lemma LinkedRound(spec: Spec, before: seq<Record>, p: Pass)
    requires GoodRound(spec, p) && Hashing(spec) && FullyHashed(spec, p) && Linked(before)
    ensures Linked(before + NewRecords(spec, before, p))
  {
    var block := NewRecords(spec, before, p);
    var rs := before + block;
    forall n | 0 <= n < |rs| ensures LinksBack(rs, n) {
      if n < |before| {
        assert LinksBack(before, n);
        assert rs[..n] == before[..n] && rs[n] == before[n];
      } else {
        var j := n - |before|;
        LinkedRecord(spec, before, p, j);
        assert rs[n] == block[j] && rs[..n] == before + block[..j];
      }
    }
  }

  lemma LinkedRecord(spec: Spec, before: seq<Record>, p: Pass, j: nat)
    requires GoodRound(spec, p) && Hashing(spec) && FullyHashed(spec, p) && j < |NewRecords(spec, before, p)|
    ensures NewRecords(spec, before, p)[j].previousHash == LastHash(before + NewRecords(spec, before, p)[..j])
  {
    NewRecordAt(spec, before, p, j);
    assert Hashed(p.outcome(j));
    if j > 0 {
      NewRecordAt(spec, before, p, j - 1);
      assert Hashed(p.outcome(j - 1));
    }
  }

  lemma {:induction false} LinkedRounds(spec: Spec, rounds: seq<Pass>)
    requires RoundPasses(spec, rounds) && Hashing(spec)
    requires forall k :: 0 <= k < |rounds| ==> FullyHashed(spec, rounds[k])
    ensures Linked(RecordsOf(spec, rounds))
    decreases |rounds|
  {
    if rounds != [] {
      var init, p := rounds[..|rounds| - 1], rounds[|rounds| - 1];
      LinkedRounds(spec, init);
      assert GoodRound(spec, p) && FullyHashed(spec, p);
      LinkedRound(spec, RecordsOf(spec, init), p);
    }
  }

  /** A run without a checksum failure leaves one chain across all its rounds. */
  lemma UnbrokenChain(spec: Spec, passes: seq<Pass>)
    requires Hashing(spec)
    requires forall k :: 0 <= k < |CapturedRounds(spec, passes)| ==> FullyHashed(spec, CapturedRounds(spec, passes)[k])
    ensures Linked(After(spec, passes).records)
  {
    RecordsAreRounds(spec, passes);
    LinkedRounds(spec, CapturedRounds(spec, passes));
  }

  // ---------- when the chain is unbroken ----------

  /** Hash of the nearest record that has one, or nothing. */
  function LatestHash(rs: seq<Record>): string {
    if rs == [] then ""
    else if rs[|rs| - 1].hash != "" then rs[|rs| - 1].hash
    else LatestHash(rs[..|rs| - 1])
  }

  /** Every hashed record links to the nearest hashed record in front of it. */
  predicate Unbroken(rs: seq<Record>) {
    forall n :: 0 <= n < |rs| ==> Continues(rs, n)
  }

  predicate Continues(rs: seq<Record>, n: nat)
    requires n < |rs|
  {
    rs[n].hash != "" ==> rs[n].previousHash == LatestHash(rs[..n])
  }

  /** Checksums are never empty strings. */
  predicate Solid(outcome: nat -> Capture, n: nat) {
    forall i :: 0 <= i < n && Hashed(outcome(i)) ==> outcome(i).hash.value != ""
  }

  predicate SolidPass(spec: Spec, p: Pass) { Solid(p.outcome, |PassTargets(spec, p)|) }

  predicate SomeHashed(spec: Spec, p: Pass) { !NoneHashed(p.outcome, |PassTargets(spec, p)|) }

  /** The last record has a hash, or no record has one. */
  predicate Connected(rs: seq<Record>) { LastHash(rs) == LatestHash(rs) }

  /** The running hash forgets its seed at the first hashed capture. */
  lemma {:induction false} SeedMatters(outcome: nat -> Capture, j: nat, a: string, b: string)
    ensures RunningHash(outcome, j, a) == RunningHash(outcome, j, b) <==> a == b || !NoneHashed(outcome, j)
  {
    if j > 0 { SeedMatters(outcome, j - 1, a, b); }
  }

  lemma LatestAppend(rs: seq<Record>, r: Record)
    ensures LatestHash(rs + [r]) == if r.hash != "" then r.hash else LatestHash(rs)
  {
    assert (rs + [r])[..|rs|] == rs;
  }

  lemma HashInBlock(spec: Spec, before: seq<Record>, p: Pass, j: nat)
    requires GoodRound(spec, p) && Hashing(spec) && SolidPass(spec, p) && j < |PassTargets(spec, p)|
    ensures |NewRecords(spec, before, p)| == |PassTargets(spec, p)|
    ensures var h := NewRecords(spec, before, p)[j].hash;
            if Hashed(p.outcome(j)) then h == p.outcome(j).hash.value != "" else h == ""
  {
    NewRecordAt(spec, before, p, j);
  }

  /** Behind the first j records of a block the latest hash is the running hash. */
  lemma {:induction false} LatestIsRunning(spec: Spec, before: seq<Record>, p: Pass, j: nat)
    requires GoodRound(spec, p) && Hashing(spec) && SolidPass(spec, p) && j <= |NewRecords(spec, before, p)|
    ensures LatestHash(before + NewRecords(spec, before, p)[..j]) == RunningHash(p.outcome, j, LatestHash(before))
    decreases j
  {
    var block := NewRecords(spec, before, p);
    HashInBlock(spec, before, p, 0);
    if j == 0 {
      assert before + block[..0] == before;
    } else {
      LatestIsRunning(spec, before, p, j - 1);
      HashInBlock(spec, before, p, j - 1);
      assert before + block[..j] == (before + block[..j - 1]) + [block[j - 1]];
      LatestAppend(before + block[..j - 1], block[j - 1]);
    }
  }

  lemma ContinuesInBlock(spec: Spec, before: seq<Record>, p: Pass, j: nat)
    requires GoodRound(spec, p) && Hashing(spec) && SolidPass(spec, p) && j < |NewRecords(spec, before, p)|
    ensures Continues(before + NewRecords(spec, before, p), |before| + j) <==>
            (Hashed(p.outcome(j)) && NoneHashed(p.outcome, j) ==> Connected(before))
  {
    var block := NewRecords(spec, before, p);
    var rs := before + block;
    NewRecordAt(spec, before, p, 0);
    NewRecordAt(spec, before, p, j);
    LatestIsRunning(spec, before, p, j);
    assert rs[|before| + j] == block[j] && rs[..|before| + j] == before + block[..j];
    SeedMatters(p.outcome, j, LastHash(before), LatestHash(before));
  }

  lemma ContinuesBefore(before: seq<Record>, block: seq<Record>, n: nat)
    requires n < |before|
    ensures Continues(before + block, n) <==> Continues(before, n)
  {
    assert (before + block)[..n] == before[..n];
  }

  /** Some first capture of the round is hashed. */
  lemma {:induction false} FirstHashed(outcome: nat -> Capture, n: nat) returns (j: nat)
    requires !NoneHashed(outcome, n)
    ensures j < n && Hashed(outcome(j)) && NoneHashed(outcome, j)
  {
    j := n - 1;
    if !NoneHashed(outcome, n - 1) { j := FirstHashed(outcome, n - 1); }
  }

  /** A round keeps the chain unbroken exactly when it hashes nothing or starts on connected records. */
  lemma RoundUnbrokenExactly(spec: Spec, before: seq<Record>, p: Pass)
    requires GoodRound(spec, p) && Hashing(spec) && SolidPass(spec, p)
    ensures Unbroken(before + NewRecords(spec, before, p)) <==>
            Unbroken(before) && (SomeHashed(spec, p) ==> Connected(before))
  {
    var block := NewRecords(spec, before, p);
    NewRecordAt(spec, before, p, 0);
    if Unbroken(before + block) {
      forall n | 0 <= n < |before| ensures Continues(before, n) { ContinuesBefore(before, block, n); }
      if SomeHashed(spec, p) {
        var j := FirstHashed(p.outcome, |block|);
        ContinuesInBlock(spec, before, p, j);
      }
    }
    if Unbroken(before) && (SomeHashed(spec, p) ==> Connected(before)) {
      forall n | 0 <= n < |before + block| ensures Continues(before + block, n) {
        if n < |before| { ContinuesBefore(before, block, n); } else { ContinuesInBlock(spec, before, p, n - |before|); }
      }
    }
  }

  /** Pass i of a run captures a round with a checksum only on records that are connected, which can be
      read off the status persisted before it. */
  predicate StartsConnected(spec: Spec, passes: seq<Pass>, i: nat)
    requires i < |passes|
  {
    var s := After(spec, passes[..i]);
    Captures(spec, s, passes[i]) && SomeHashed(spec, passes[i]) ==> Connected(s.records)
  }

  lemma StartsPrefix(spec: Spec, passes: seq<Pass>, i: nat)
    requires i < |passes| - 1
    ensures StartsConnected(spec, passes[..|passes| - 1], i) == StartsConnected(spec, passes, i)
  {
    assert passes[..|passes| - 1][..i] == passes[..i];
  }

  /** All passes of a run start connected, one after the other. */
  predicate AllStartConnected(spec: Spec, passes: seq<Pass>) {
    passes == [] ||
    (AllStartConnected(spec, passes[..|passes| - 1]) && StartsConnected(spec, passes, |passes| - 1))
  }

  lemma {:induction false} AllStartEach(spec: Spec, passes: seq<Pass>, i: nat)
    requires AllStartConnected(spec, passes) && i < |passes|
    ensures StartsConnected(spec, passes, i)
  {
    if i < |passes| - 1 {
      AllStartEach(spec, passes[..|passes| - 1], i);
      StartsPrefix(spec, passes, i);
    }
  }

  lemma {:induction false} SomeStartsBroken(spec: Spec, passes: seq<Pass>) returns (i: nat)
    requires !AllStartConnected(spec, passes)
    ensures i < |passes| && !StartsConnected(spec, passes, i)
  {
    i := |passes| - 1;
    if StartsConnected(spec, passes, i) {
      i := SomeStartsBroken(spec, passes[..i]);
      StartsPrefix(spec, passes, i);
    }
  }

  lemma AfterLast(spec: Spec, passes: seq<Pass>)
    requires passes != []
    ensures After(spec, passes) == Step(spec, After(spec, passes[..|passes| - 1]), passes[|passes| - 1]).status
  {
  }

  lemma UnbrokenStep(spec: Spec, s: Status, p: Pass)
    requires Hashing(spec) && SolidPass(spec, p)
    ensures Unbroken(Step(spec, s, p).status.records) <==>
            Unbroken(s.records) && (Captures(spec, s, p) && SomeHashed(spec, p) ==> Connected(s.records))
  {
    StepCounts(spec, s, p);
    if Captures(spec, s, p) { RoundUnbrokenExactly(spec, s.records, p); }
  }

  lemma {:induction false} UnbrokenIffConnected(spec: Spec, passes: seq<Pass>)
    requires Hashing(spec) && forall i :: 0 <= i < |passes| ==> SolidPass(spec, passes[i])
    ensures Unbroken(After(spec, passes).records) <==> AllStartConnected(spec, passes)
    decreases |passes|
  {
    if passes != [] {
      var n := |passes| - 1;
      UnbrokenIffConnected(spec, passes[..n]);
      AfterLast(spec, passes);
      UnbrokenStep(spec, After(spec, passes[..n]), passes[n]);
    }
  }

  /** Exactly when a run leaves one unbroken chain: no captured round with a checksum starts behind a
      record that lacks its checksum while an earlier one has it. A checksum failure inside a round,
      or before the first checksum, does not matter. */
  lemma UnbrokenExactly(spec: Spec, passes: seq<Pass>)
    requires Hashing(spec) && forall i :: 0 <= i < |passes| ==> SolidPass(spec, passes[i])
    ensures Unbroken(After(spec, passes).records) <==>
            forall i :: 0 <= i < |passes| ==> StartsConnected(spec, passes, i)
  {
    UnbrokenIffConnected(spec, passes);
    if AllStartConnected(spec, passes) {
      forall i | 0 <= i < |passes| ensures StartsConnected(spec, passes, i) { AllStartEach(spec, passes, i); }
    } else {
      var i := SomeStartsBroken(spec, passes);
    }
  }

  // ---------- the destructive final action ----------

  /** Pods for which the i-th pass of a run issues a delete. */
  function DeletesAt(spec: Spec, passes: seq<Pass>, i: nat): seq<string>
    requires i < |passes|
  {
    Step(spec, After(spec, passes[..i]), passes[i]).deletes
  }

  lemma DeleteStep(spec: Spec, s: Status, p: Pass)
    requires Step(spec, s, p).deletes != []
    ensures s.phase.Running? && spec.deletePods && p.writeOk
    ensures Step(spec, s, p).status.phase.Completed? && Step(spec, s, p).status.snapshotCount != 0
  {}

  lemma {:induction false} TerminalForever(spec: Spec, passes: seq<Pass>, i: nat)
    requires i <= |passes| && Terminal(After(spec, passes[..i]).phase)
    ensures After(spec, passes) == After(spec, passes[..i])
    decreases |passes|
  {
    if i == |passes| {
      assert passes[..i] == passes;
    } else {
      var init := passes[..|passes| - 1];
      assert init[..i] == passes[..i];
      TerminalForever(spec, init, i);
    }
  }

  lemma AfterPrefix(spec: Spec, passes: seq<Pass>, i: nat)
    requires i < |passes|
    ensures After(spec, passes[..i + 1]) == Step(spec, After(spec, passes[..i]), passes[i]).status
  {
    assert passes[..i + 1][..i] == passes[..i];
  }

  /** Pods are deleted in at most one pass of any run. */
  lemma DeletesAtMostOnce(spec: Spec, passes: seq<Pass>, i: nat, j: nat)
    requires i < j < |passes| && DeletesAt(spec, passes, i) != []
    ensures DeletesAt(spec, passes, j) == []
  {
    DeleteStep(spec, After(spec, passes[..i]), passes[i]);
    AfterPrefix(spec, passes, i);
    assert passes[..j][..i + 1] == passes[..i + 1];
    TerminalForever(spec, passes[..j], i + 1);
  }

  /** They are deleted only in the pass that persists Completed, and only with evidence on record. */
  lemma DeletesAfterEvidence(spec: Spec, passes: seq<Pass>, i: nat)
    requires i < |passes| && DeletesAt(spec, passes, i) != []
    ensures spec.deletePods && After(spec, passes[..i]).phase.Running?
    ensures After(spec, passes[..i + 1]).phase.Completed? && After(spec, passes[..i + 1]).records != []
    ensures After(spec, passes) == After(spec, passes[..i + 1])
  {
    DeleteStep(spec, After(spec, passes[..i]), passes[i]);
    AfterPrefix(spec, passes, i);
    CountersMeanRounds(spec, passes[..i + 1]);
    RecordsAreRounds(spec, passes[..i + 1]);
    RecordsEnumerateTargets(spec, CapturedRounds(spec, passes[..i + 1]));
    TerminalForever(spec, passes, i + 1);
  }

  /** A failed run never deletes. */
  lemma FailedNeverDeletes(spec: Spec, passes: seq<Pass>, i: nat)
    requires i < |passes| && After(spec, passes).phase.Failed?
    ensures DeletesAt(spec, passes, i) == []
  {
    if DeletesAt(spec, passes, i) != [] { DeletesAfterEvidence(spec, passes, i); assert false; }
  }

  // ---------- which pods are deleted ----------

  /** The delete calls name the listed pods in order, none before the last fails, and they stop early
      only behind a failing call. */
  predicate DeletesInOrder(calls: seq<string>, pods: seq<Pod>, fails: nat -> bool) {
    && |calls| <= |pods| && (forall i :: 0 <= i < |calls| ==> calls[i] == pods[i].name)
    && (forall i :: 0 <= i < |calls| - 1 ==> !fails(i))
    && (|calls| == |pods| || (calls != [] && fails(|calls| - 1)))
  }

  lemma {:induction false} CallsFrom(pods: seq<Pod>, fails: nat -> bool, i: nat)
    requires i <= |pods|
    ensures var calls := DeleteCalls(pods, fails, i);
            && |calls| <= |pods| - i && (forall j :: i <= j < i + |calls| ==> calls[j - i] == pods[j].name)
            && (forall j :: i <= j < i + |calls| - 1 ==> !fails(j))
            && (|calls| == |pods| - i || (calls != [] && fails(i + |calls| - 1)))
    decreases |pods| - i
  {
    if i < |pods| && !fails(i) { CallsFrom(pods, fails, i + 1); }
  }

  lemma CallsInOrder(pods: seq<Pod>, fails: nat -> bool)
    ensures DeletesInOrder(DeleteCalls(pods, fails, 0), pods, fails)
  {
    CallsFrom(pods, fails, 0);
    var calls := DeleteCalls(pods, fails, 0);
    forall i | 0 <= i < |calls| ensures calls[i] == pods[i].name { assert calls[i - 0] == pods[i].name; }
  }

  /** The pass persists the end of the chain. */
  predicate Completes(spec: Spec, s: Status, p: Pass) {
    s.phase.Running? && Step(spec, s, p).status.phase.Completed?
  }

  lemma DeleteStepExact(spec: Spec, s: Status, p: Pass)
    ensures if Completes(spec, s, p) && spec.deletePods && Step(spec, s, p).status.snapshotCount != 0
            then p.pods.Some? && Step(spec, s, p).deletes == DeleteCalls(p.pods.value, p.deleteFails, 0)
            else Step(spec, s, p).deletes == []
  {}

  /** Exactly which pods a pass of a run deletes: if it completes a chain that asks for it and has
      captured something, the listed pods in order up to the first failing call; else none. */
  lemma DeletesExactlyThen(spec: Spec, passes: seq<Pass>, i: nat)
    requires i < |passes|
    ensures var s, p := After(spec, passes[..i]), passes[i];
            if Completes(spec, s, p) && spec.deletePods && Step(spec, s, p).status.snapshotCount != 0
            then p.pods.Some? && DeletesInOrder(DeletesAt(spec, passes, i), p.pods.value, p.deleteFails)
            else DeletesAt(spec, passes, i) == []
  {
    var s, p := After(spec, passes[..i]), passes[i];
    DeleteStepExact(spec, s, p);
    if p.pods.Some? { CallsInOrder(p.pods.value, p.deleteFails); }
  }
}
