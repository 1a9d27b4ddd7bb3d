/** The reference-counted table of per-target mutexes around kubelet checkpoint requests, as a
    transition system: any number of callers, interleaved at every mutex operation and retry. */
module TargetLocks {
  import opened Common

  const MAX_ATTEMPTS := 3

  /** A lock object; the table may forget it while callers still hold a reference. */
  datatype Lock = Lock(holder: Option<nat>, refs: int)

  /** Where a caller of createCheckpoint stands. l is the lock object it fetched from the table. */
  datatype PC =
    | Start
    | Registering                     // owns the table mutex, inside lock()
    | WaitLock(l: nat)                // counted in refs, waiting for the target mutex
    | Request(l: nat, attempt: nat)   // owns the target mutex, one kubelet request in flight
    | Backoff(l: nat, attempt: nat)   // owns the target mutex, sleeping before the next attempt
    | Unlocking(l: nat)               // owns the target mutex, about to run the unlock closure
    | WaitTable(l: nat)               // target mutex released, waiting for the table mutex
    | Unregistering(l: nat)           // owns the table mutex, inside the unlock closure
    | Done

  datatype Caller = Caller(target: string, pc: PC)

  datatype State = State(callers: seq<Caller>, table: map<string, nat>, locks: seq<Lock>, tableMu: Option<nat>)

  datatype Action =
    | LockTable | Register | LockTarget | SetupFails
    | Succeeds | FailsForGood | FailsTransiently | Wakes | Cancelled
    | UnlockTarget | RelockTable | Unregister

  datatype Step = Step(i: nat, action: Action)

  predicate Enabled(s: State, step: Step) {
    step.i < |s.callers| &&
    var pc := s.callers[step.i].pc;
    match step.action
    case LockTable => pc.Start? && s.tableMu.None?
    case Register => pc.Registering?
    case LockTarget => pc.WaitLock? && pc.l < |s.locks| && s.locks[pc.l].holder.None?
    case SetupFails => pc.Request? && pc.attempt == 1
    case Succeeds => pc.Request?
    case FailsForGood => pc.Request?
    case FailsTransiently => pc.Request?
    case Wakes => pc.Backoff?
    case Cancelled => pc.Backoff?
    case UnlockTarget => pc.Unlocking? && pc.l < |s.locks|
    case RelockTable => pc.WaitTable? && s.tableMu.None?
    case Unregister => pc.Unregistering? && pc.l < |s.locks|
  }

  function Goto(s: State, i: nat, pc: PC): State
    requires i < |s.callers|
  {
    s.(callers := s.callers[i := s.callers[i].(pc := pc)])
  }

  function Apply(s: State, step: Step): State
    requires Enabled(s, step)
  {
    var i := step.i;
    var pc, target := s.callers[i].pc, s.callers[i].target;
    match step.action
    case LockTable => Goto(s, i, Registering).(tableMu := Some(i))
    case Register =>
      if target in s.table && s.table[target] < |s.locks| then
        var l := s.table[target];
        Goto(s, i, WaitLock(l)).(locks := s.locks[l := s.locks[l].(refs := s.locks[l].refs + 1)], tableMu := None)
      else
        var l := |s.locks|;
        Goto(s, i, WaitLock(l)).(locks := s.locks + [Lock(None, 1)], table := s.table[target := l], tableMu := None)
    case LockTarget =>
      Goto(s, i, Request(pc.l, 1)).(locks := s.locks[pc.l := s.locks[pc.l].(holder := Some(i))])
    case SetupFails => Goto(s, i, Unlocking(pc.l))
    case Succeeds => Goto(s, i, Unlocking(pc.l))
    case FailsForGood => Goto(s, i, Unlocking(pc.l))
    case FailsTransiently =>
      Goto(s, i, if pc.attempt >= MAX_ATTEMPTS then Unlocking(pc.l) else Backoff(pc.l, pc.attempt))
    case Wakes => Goto(s, i, Request(pc.l, pc.attempt + 1))
    case Cancelled => Goto(s, i, Unlocking(pc.l))
    case UnlockTarget =>
      Goto(s, i, WaitTable(pc.l)).(locks := s.locks[pc.l := s.locks[pc.l].(holder := None)])
    case RelockTable => Goto(s, i, Unregistering(pc.l)).(tableMu := Some(i))
    case Unregister =>
      var refs := s.locks[pc.l].refs - 1;
      Goto(s, i, Done).(locks := s.locks[pc.l := s.locks[pc.l].(refs := refs)],
                        table := if refs == 0 then s.table - {target} else s.table,
                        tableMu := None)
  }

  predicate IsRun(s: State, steps: seq<Step>)
    decreases |steps|
  {
    steps == [] || (Enabled(s, steps[0]) && IsRun(Apply(s, steps[0]), steps[1..]))
  }

  function Exec(s: State, steps: seq<Step>): State
    requires IsRun(s, steps)
    decreases |steps|
  {
    if steps == [] then s else Exec(Apply(s, steps[0]), steps[1..])
  }

  predicate Initial(s: State) {
    s.table == map[] && s.locks == [] && s.tableMu.None? &&
    forall i :: 0 <= i < |s.callers| ==> s.callers[i].pc.Start?
  }

  // ---------- the invariant ----------

  /** The caller holds a counted reference to lock l. */
  predicate Outstanding(pc: PC, l: nat) {
    match pc
    case WaitLock(m) => m == l
    case Request(m, _) => m == l
    case Backoff(m, _) => m == l
    case Unlocking(m) => m == l
    case WaitTable(m) => m == l
    case Unregistering(m) => m == l
    case _ => false
  }

  predicate OwnsTarget(pc: PC, l: nat) {
    (pc.Request? && pc.l == l) || (pc.Backoff? && pc.l == l) || (pc.Unlocking? && pc.l == l)
  }

  predicate OwnsTable(pc: PC) { pc.Registering? || pc.Unregistering? }

  function Count(callers: seq<Caller>, l: nat): nat {
    if callers == [] then 0
    else Count(callers[..|callers| - 1], l) + (if Outstanding(callers[|callers| - 1].pc, l) then 1 else 0)
  }

  predicate RefsExact(s: State) {
    forall l :: 0 <= l < |s.locks| ==> s.locks[l].refs == Count(s.callers, l)
  }

  predicate HasReference(pc: PC) {
    pc.WaitLock? || pc.Request? || pc.Backoff? || pc.Unlocking? || pc.WaitTable? || pc.Unregistering?
  }

  /** The table entry of a target is the object every outstanding caller for it uses. */
  predicate EntryShared(s: State) {
    forall i :: 0 <= i < |s.callers| && HasReference(s.callers[i].pc) ==>
      && s.callers[i].pc.l < |s.locks|
      && s.callers[i].target in s.table && s.table[s.callers[i].target] == s.callers[i].pc.l
  }

  predicate TableSound(s: State) {
    && (forall t :: t in s.table ==> s.table[t] < |s.locks| && s.locks[s.table[t]].refs > 0)
    && (forall t, u :: t in s.table && u in s.table && t != u ==> s.table[t] != s.table[u])
  }

  predicate HoldersExact(s: State) {
    && (forall l :: 0 <= l < |s.locks| && s.locks[l].holder.Some? ==>
          s.locks[l].holder.value < |s.callers| && OwnsTarget(s.callers[s.locks[l].holder.value].pc, l))
    && (forall i, l :: 0 <= i < |s.callers| && 0 <= l < |s.locks| && OwnsTarget(s.callers[i].pc, l) ==>
          s.locks[l].holder == Some(i))
  }

  predicate TableMutexExact(s: State) {
    && (s.tableMu.Some? ==> s.tableMu.value < |s.callers| && OwnsTable(s.callers[s.tableMu.value].pc))
    && (forall i :: 0 <= i < |s.callers| && OwnsTable(s.callers[i].pc) ==> s.tableMu == Some(i))
  }

  predicate AttemptsBounded(s: State) {
    forall i :: 0 <= i < |s.callers| ==>
      && (s.callers[i].pc.Request? ==> 1 <= s.callers[i].pc.attempt <= MAX_ATTEMPTS)
      && (s.callers[i].pc.Backoff? ==> 1 <= s.callers[i].pc.attempt < MAX_ATTEMPTS)
  }

  predicate Inv(s: State) {
    RefsExact(s) && EntryShared(s) && TableSound(s) && HoldersExact(s) && TableMutexExact(s) && AttemptsBounded(s)
  }

  // ---------- counting ----------

  lemma {:induction false} CountUpdate(callers: seq<Caller>, i: nat, c: Caller, l: nat)
    requires i < |callers|
    ensures Count(callers[i := c], l) ==
            Count(callers, l) - (if Outstanding(callers[i].pc, l) then 1 else 0) + (if Outstanding(c.pc, l) then 1 else 0)
    decreases |callers|
  {
    var n := |callers| - 1;
    if i < n {
      assert callers[i := c][..n] == callers[..n][i := c];
      CountUpdate(callers[..n], i, c, l);
    } else {
      assert callers[i := c][..n] == callers[..n];
    }
  }

  lemma {:induction false} CountPositive(callers: seq<Caller>, l: nat)
    ensures Count(callers, l) > 0 <==> exists i :: 0 <= i < |callers| && Outstanding(callers[i].pc, l)
  {
    if callers != [] {
      var n := |callers| - 1;
      var init := callers[..n];
      CountPositive(init, l);
      assert Outstanding(callers[n].pc, l) || !Outstanding(callers[n].pc, l);
      if Count(init, l) > 0 {
        var i :| 0 <= i < |init| && Outstanding(init[i].pc, l);
        assert Outstanding(callers[i].pc, l);
      }
      if i :| 0 <= i < |callers| && Outstanding(callers[i].pc, l) {
        assert i < n ==> Outstanding(init[i].pc, l);
      }
    }
  }

  // ---------- preservation ----------

  lemma InitialInv(s: State)
    requires Initial(s)
    ensures Inv(s)
  {}

  /** Steps that move one caller between two states with the same references and mutexes. */
  lemma QuietStep(s: State, i: nat, pc: PC)
    requires Inv(s) && i < |s.callers|
    requires var old_pc := s.callers[i].pc;
             && HasReference(old_pc) && HasReference(pc) && pc.l == old_pc.l
             && OwnsTarget(old_pc, pc.l) && OwnsTarget(pc, pc.l)
    requires pc.Request? ==> 1 <= pc.attempt <= MAX_ATTEMPTS
    requires pc.Backoff? ==> 1 <= pc.attempt < MAX_ATTEMPTS
    ensures Inv(Goto(s, i, pc))
  {
    assert RefsExact(Goto(s, i, pc)) by { RefsAfter(s, Goto(s, i, pc), i); }
  }

  /** Counts follow the references when one caller moves. */
  lemma RefsAfter(s: State, s': State, i: nat)
    requires RefsExact(s) && i < |s.callers| == |s'.callers| && |s.locks| <= |s'.locks|
    requires s'.callers == s.callers[i := s'.callers[i]]
    requires forall l :: 0 <= l < |s'.locks| ==>
               s'.locks[l].refs == (if l < |s.locks| then s.locks[l].refs else Count(s.callers, l))
                 - (if Outstanding(s.callers[i].pc, l) then 1 else 0)
                 + (if Outstanding(s'.callers[i].pc, l) then 1 else 0)
    ensures RefsExact(s')
  {
    forall l | 0 <= l < |s'.locks| ensures s'.locks[l].refs == Count(s'.callers, l) {
      CountUpdate(s.callers, i, s'.callers[i], l);
    }
  }

  lemma LockTableKeepsInv(s: State, step: Step)
    requires Inv(s) && Enabled(s, step) && (step.action.LockTable? || step.action.RelockTable?)
    ensures Inv(Apply(s, step))
  {
    assert RefsExact(Apply(s, step)) by { RefsAfter(s, Apply(s, step), step.i); }
  }

  lemma LockTargetKeepsInv(s: State, step: Step)
    requires Inv(s) && Enabled(s, step) && step.action.LockTarget?
    ensures Inv(Apply(s, step))
  {
    assert RefsExact(Apply(s, step)) by { RefsAfter(s, Apply(s, step), step.i); }
  }

  lemma UnlockTargetHolders(s: State, step: Step)
    requires Inv(s) && Enabled(s, step) && step.action.UnlockTarget?
    ensures HoldersExact(Apply(s, step)) && RefsExact(Apply(s, step))
  {
    assert RefsExact(Apply(s, step)) by { RefsAfter(s, Apply(s, step), step.i); }
  }

  lemma UnlockTargetKeepsInv(s: State, step: Step)
    requires Inv(s) && Enabled(s, step) && step.action.UnlockTarget?
    ensures Inv(Apply(s, step))
  {
    UnlockTargetHolders(s, step);
  }

  lemma RegisterOldKeepsInv(s: State, step: Step)
    requires Inv(s) && Enabled(s, step) && step.action.Register? && s.callers[step.i].target in s.table
    ensures Inv(Apply(s, step))
  {
    assert RefsExact(Apply(s, step)) by { RefsAfter(s, Apply(s, step), step.i); }
  }

  lemma RegisterNewRefs(s: State, step: Step)
    requires Inv(s) && Enabled(s, step) && step.action.Register? && s.callers[step.i].target !in s.table
    ensures RefsExact(Apply(s, step)) && TableSound(Apply(s, step))
  {
    CountPositive(s.callers, |s.locks|);
    RefsAfter(s, Apply(s, step), step.i);
  }

  lemma RegisterNewKeepsInv(s: State, step: Step)
    requires Inv(s) && Enabled(s, step) && step.action.Register? && s.callers[step.i].target !in s.table
    ensures Inv(Apply(s, step))
  {
    RegisterNewRefs(s, step);
    var s' := Apply(s, step);
    assert forall j :: 0 <= j < |s.callers| && j != step.i ==> s'.callers[j] == s.callers[j];
    assert EntryShared(s');
    assert HoldersExact(s') && TableMutexExact(s');
  }

  lemma UnregisterRefs(s: State, step: Step)
    requires Inv(s) && Enabled(s, step) && step.action.Unregister?
    ensures RefsExact(Apply(s, step)) && TableSound(Apply(s, step))
  {
    CountPositive(s.callers, s.callers[step.i].pc.l);
    RefsAfter(s, Apply(s, step), step.i);
  }

  lemma UnregisterEntries(s: State, step: Step)
    requires Inv(s) && Enabled(s, step) && step.action.Unregister?
    ensures EntryShared(Apply(s, step))
  {
    UnregisterRefs(s, step);
    var s' := Apply(s, step);
    CountPositive(s'.callers, s.callers[step.i].pc.l);
    forall i | 0 <= i < |s'.callers| && HasReference(s'.callers[i].pc)
      ensures s'.callers[i].target in s'.table
    {
      assert s'.callers[i] == s.callers[i];
      assert Outstanding(s'.callers[i].pc, s'.callers[i].pc.l);
    }
  }

  lemma UnregisterMutexes(s: State, step: Step)
    requires Inv(s) && Enabled(s, step) && step.action.Unregister?
    ensures HoldersExact(Apply(s, step)) && TableMutexExact(Apply(s, step)) && AttemptsBounded(Apply(s, step))
  {
  }

  lemma UnregisterKeepsInv(s: State, step: Step)
    requires Inv(s) && Enabled(s, step) && step.action.Unregister?
    ensures Inv(Apply(s, step))
  {
    UnregisterRefs(s, step);
    UnregisterEntries(s, step);
    UnregisterMutexes(s, step);
  }

  lemma StepKeepsInv(s: State, step: Step)
    requires Inv(s) && Enabled(s, step)
    ensures Inv(Apply(s, step))
  {
    var pc := s.callers[step.i].pc;
    match step.action
    case LockTable => LockTableKeepsInv(s, step);
    case RelockTable => LockTableKeepsInv(s, step);
    case Register =>
      if s.callers[step.i].target in s.table { RegisterOldKeepsInv(s, step); } else { RegisterNewKeepsInv(s, step); }
    case Unregister => UnregisterKeepsInv(s, step);
    case LockTarget => LockTargetKeepsInv(s, step);
    case UnlockTarget => UnlockTargetKeepsInv(s, step);
    case Wakes => QuietStep(s, step.i, Request(pc.l, pc.attempt + 1));
    case FailsTransiently =>
      QuietStep(s, step.i, if pc.attempt >= MAX_ATTEMPTS then Unlocking(pc.l) else Backoff(pc.l, pc.attempt));
    case _ => QuietStep(s, step.i, Unlocking(pc.l));
  }

  lemma {:induction false} RunKeepsInv(s: State, steps: seq<Step>)
    requires Inv(s) && IsRun(s, steps)
    ensures Inv(Exec(s, steps))
    decreases |steps|
  {
    if steps != [] {
      StepKeepsInv(s, steps[0]);
      RunKeepsInv(Apply(s, steps[0]), steps[1..]);
    }
  }

  // ---------- what the table guarantees in every run ----------

  /** At most one caller per target owns its mutex, so at most one kubelet request per target is in
      flight, retries included. */
  lemma MutualExclusion(s: State, steps: seq<Step>, i: nat, j: nat, l: nat, m: nat)
    requires Initial(s) && IsRun(s, steps)
    requires var e := Exec(s, steps);
             && i < |e.callers| && j < |e.callers| && e.callers[i].target == e.callers[j].target
             && OwnsTarget(e.callers[i].pc, l) && OwnsTarget(e.callers[j].pc, m)
    ensures i == j
  {
    InitialInv(s);
    RunKeepsInv(s, steps);
    var e := Exec(s, steps);
    assert HasReference(e.callers[i].pc) && HasReference(e.callers[j].pc);
    assert e.locks[l].holder == Some(i) && e.locks[m].holder == Some(j);
  }

  /** The entry of a target is the object all outstanding callers use, its count is their number,
      and a target without outstanding callers has no entry. */
  lemma TableExact(s: State, steps: seq<Step>)
    requires Initial(s) && IsRun(s, steps)
    ensures var e := Exec(s, steps);
            && (forall i :: 0 <= i < |e.callers| && HasReference(e.callers[i].pc) ==>
                  e.callers[i].target in e.table && e.table[e.callers[i].target] == e.callers[i].pc.l)
            && (forall t :: t in e.table ==>
                  (e.table[t] < |e.locks| && e.locks[e.table[t]].refs == Count(e.callers, e.table[t]) > 0))
            && (forall t :: t in e.table ==> HasCaller(e, t))
  {
    InitialInv(s);
    RunKeepsInv(s, steps);
    var e := Exec(s, steps);
    forall t | t in e.table ensures HasCaller(e, t) { EntryHasCaller(e, t); }
  }

  /** Some caller for t holds a reference to the lock its entry names. */
  predicate HasCaller(s: State, t: string) {
    t in s.table &&
    exists i :: 0 <= i < |s.callers| && s.callers[i].target == t && Outstanding(s.callers[i].pc, s.table[t])
  }

  lemma EntryHasCaller(s: State, t: string)
    requires Inv(s) && t in s.table
    ensures HasCaller(s, t)
  {
    CountPositive(s.callers, s.table[t]);
    var i :| 0 <= i < |s.callers| && Outstanding(s.callers[i].pc, s.table[t]);
    assert HasReference(s.callers[i].pc);
    assert s.table[s.callers[i].target] == s.table[t];
  }

  predicate AllDone(s: State) {
    forall i :: 0 <= i < |s.callers| ==> s.callers[i].pc.Done?
  }

  lemma NobodyLeft(s: State)
    requires Inv(s) && AllDone(s)
    ensures s.table == map[]
  {
    forall t ensures t !in s.table {
      if t in s.table { EntryHasCaller(s, t); assert false; }
    }
  }

  lemma EmptyWhenDone(s: State, steps: seq<Step>)
    requires Initial(s) && IsRun(s, steps)
    requires AllDone(Exec(s, steps))
    ensures Exec(s, steps).table == map[]
  {
    InitialInv(s);
    RunKeepsInv(s, steps);
    NobodyLeft(Exec(s, steps));
  }

  /** The step a caller takes if no mutex keeps it waiting. */
  function OwnStep(i: nat, pc: PC): Step {
    Step(i, match pc
            case Start => LockTable
            case Registering => Register
            case WaitLock(_) => LockTarget
            case Request(_, _) => Succeeds
            case Backoff(_, _) => Wakes
            case Unlocking(_) => UnlockTarget
            case WaitTable(_) => RelockTable
            case Unregistering(_) => Unregister
            case Done => Unregister)
  }

  /** No reachable state is stuck: while a caller is not done, some step is enabled. */
  lemma NeverStuck(s: State, steps: seq<Step>, c: nat)
    requires Initial(s) && IsRun(s, steps)
    requires c < |Exec(s, steps).callers| && !Exec(s, steps).callers[c].pc.Done?
    ensures exists step :: Enabled(Exec(s, steps), step)
  {
    InitialInv(s);
    RunKeepsInv(s, steps);
    var e := Exec(s, steps);
    var pc := e.callers[c].pc;
    if e.tableMu.Some? {
      var i := e.tableMu.value;
      assert Enabled(e, OwnStep(i, e.callers[i].pc));
    } else if pc.WaitLock? && e.locks[pc.l].holder.Some? {
      var i := e.locks[pc.l].holder.value;
      assert Enabled(e, OwnStep(i, e.callers[i].pc));
    } else {
      assert Enabled(e, OwnStep(c, pc));
    }
  }

  /** Steps a caller can still take at most. */
  function Rank(pc: PC): nat {
    match pc
    case Start => 11
    case Registering => 10
    case WaitLock(_) => 9
    case Request(_, a) => if a <= 3 then 2 * (3 - a) + 4 else 4
    case Backoff(_, a) => if a <= 2 then 2 * (3 - a) + 3 else 4
    case Unlocking(_) => 3
    case WaitTable(_) => 2
    case Unregistering(_) => 1
    case Done => 0
  }

  function TotalRank(callers: seq<Caller>): nat {
    if callers == [] then 0 else TotalRank(callers[..|callers| - 1]) + Rank(callers[|callers| - 1].pc)
  }

  lemma {:induction false} RankUpdate(callers: seq<Caller>, i: nat, c: Caller)
    requires i < |callers|
    ensures TotalRank(callers[i := c]) == TotalRank(callers) - Rank(callers[i].pc) + Rank(c.pc)
    decreases |callers|
  {
    var n := |callers| - 1;
    if i < n {
      assert callers[i := c][..n] == callers[..n][i := c];
      RankUpdate(callers[..n], i, c);
    } else {
      assert callers[i := c][..n] == callers[..n];
    }
  }

  lemma StepShrinksRank(s: State, step: Step)
    requires Inv(s) && Enabled(s, step)
    ensures |Apply(s, step).callers| == |s.callers|
    ensures TotalRank(Apply(s, step).callers) < TotalRank(s.callers)
  {
    var s', i := Apply(s, step), step.i;
    assert s'.callers == s.callers[i := s'.callers[i]];
    RankUpdate(s.callers, i, s'.callers[i]);
    assert Rank(s'.callers[i].pc) < Rank(s.callers[i].pc);
  }

  lemma {:induction false} RunShrinksRank(s: State, steps: seq<Step>)
    requires Inv(s) && IsRun(s, steps)
    ensures |Exec(s, steps).callers| == |s.callers|
    ensures |steps| + TotalRank(Exec(s, steps).callers) <= TotalRank(s.callers)
    decreases |steps|
  {
    if steps != [] {
      StepKeepsInv(s, steps[0]);
      StepShrinksRank(s, steps[0]);
      RunShrinksRank(Apply(s, steps[0]), steps[1..]);
    }
  }

  lemma {:induction false} InitialRank(callers: seq<Caller>)
    requires forall i :: 0 <= i < |callers| ==> callers[i].pc.Start?
    ensures TotalRank(callers) == 11 * |callers|
  {
    if callers != [] { InitialRank(callers[..|callers| - 1]); }
  }

  /** Every run is finite, and a run that cannot be continued has served every caller and left the
      table empty. */
  lemma EveryRunEnds(s: State, steps: seq<Step>)
    requires Initial(s) && IsRun(s, steps)
    ensures |steps| <= 11 * |s.callers|
    ensures (forall step :: !Enabled(Exec(s, steps), step)) ==>
              AllDone(Exec(s, steps)) && Exec(s, steps).table == map[]
  {
    InitialInv(s);
    RunShrinksRank(s, steps);
    InitialRank(s.callers);
    var e := Exec(s, steps);
    if forall step :: !Enabled(e, step) {
      forall i | 0 <= i < |e.callers| ensures e.callers[i].pc.Done? {
        if !e.callers[i].pc.Done? { NeverStuck(s, steps, i); assert false; }
      }
      EmptyWhenDone(s, steps);
    }
  }

  // ---------- targets and their keys ----------

  function TargetKey(node: string, ns: string, pod: string, container: string): string {
    node + "/" + ns + "/" + pod + "/" + container
  }

  lemma SlashSplit(a: string, x: string, b: string, y: string)
    requires '/' !in a && '/' !in b && a + "/" + x == b + "/" + y
    ensures a == b && x == y
  {
    var l, r := a + "/" + x, b + "/" + y;
    assert l[|a|] == '/' && r[|b|] == '/';
    assert forall k :: 0 <= k < |a| ==> l[k] == a[k] && a[k] in a;
    assert forall k :: 0 <= k < |b| ==> r[k] == b[k] && b[k] in b;
    assert |a| == |b|;
    assert a == l[..|a|] && b == r[..|b|] && x == l[|a| + 1..] && y == r[|b| + 1..];
  }

  /** Names contain no '/', so different containers never share a lock. */
  lemma TargetKeyInjective(node: string, ns: string, pod: string, container: string,
                           node': string, ns': string, pod': string, container': string)
    requires '/' !in node && '/' !in ns && '/' !in pod && '/' !in node' && '/' !in ns' && '/' !in pod'
    requires TargetKey(node, ns, pod, container) == TargetKey(node', ns', pod', container')
    ensures node == node' && ns == ns' && pod == pod' && container == container'
  {
    assert TargetKey(node, ns, pod, container) == node + "/" + (ns + "/" + (pod + "/" + container));
    assert TargetKey(node', ns', pod', container') == node' + "/" + (ns' + "/" + (pod' + "/" + container'));
    SlashSplit(node, ns + "/" + (pod + "/" + container), node', ns' + "/" + (pod' + "/" + container'));
    SlashSplit(ns, pod + "/" + container, ns', pod' + "/" + container');
    SlashSplit(pod, container, pod', container');
  }

  // ---------- retries ----------

  /** Transient failures of caller i in these steps. */
  function Failures(steps: seq<Step>, i: nat): nat {
    if steps == [] then 0
    else (if steps[0] == Step(i, FailsTransiently) then 1 else 0) + Failures(steps[1..], i)
  }

  /** Caller i met an end of its own: a success, a permanent error, a cancelled wait, or no client. */
  predicate Ended(steps: seq<Step>, i: nat) {
    Step(i, Succeeds) in steps || Step(i, FailsForGood) in steps || Step(i, Cancelled) in steps || Step(i, SetupFails) in steps
  }

  /** Where a caller may stand after that many transient failures. */
  predicate Fits(pc: PC, failures: nat, ended: bool) {
    match pc
    case Request(_, attempt) => !ended && failures == attempt - 1 < 3
    case Backoff(_, attempt) => !ended && failures == attempt < 3
    case Unlocking(_) => failures <= 3 && (ended || failures == 3)
    case WaitTable(_) => failures <= 3 && (ended || failures == 3)
    case Unregistering(_) => failures <= 3 && (ended || failures == 3)
    case Done => failures <= 3 && (ended || failures == 3)
    case _ => !ended && failures == 0
  }

  lemma FitsStep(s: State, step: Step, i: nat, failures: nat, ended: bool)
    requires Enabled(s, step) && i < |s.callers| && Fits(s.callers[i].pc, failures, ended)
    ensures i < |Apply(s, step).callers|
    ensures Fits(Apply(s, step).callers[i].pc, failures + if step == Step(i, FailsTransiently) then 1 else 0,
                 ended || Ended([step], i))
  {
    if step.i != i { assert Apply(s, step).callers[i] == s.callers[i]; }
  }

  lemma {:induction false} FitsRun(s: State, steps: seq<Step>, i: nat, failures: nat, ended: bool)
    requires IsRun(s, steps) && i < |s.callers| && Fits(s.callers[i].pc, failures, ended)
    ensures i < |Exec(s, steps).callers|
    ensures Fits(Exec(s, steps).callers[i].pc, failures + Failures(steps, i), ended || Ended(steps, i))
    decreases |steps|
  {
    if steps != [] {
      FitsStep(s, steps[0], i, failures, ended);
      FitsRun(Apply(s, steps[0]), steps[1..], i, failures + if steps[0] == Step(i, FailsTransiently) then 1 else 0,
              ended || Ended([steps[0]], i));
      assert steps == [steps[0]] + steps[1..];
    }
  }

  /** A transient failure is retried until the third request: in every run a caller has at most three,
      and one that has left its request loop met an end of its own or exactly three. Only the first
      request can fail for want of a client. */
  lemma RetriedUpToThree(s: State, steps: seq<Step>, i: nat)
    requires Initial(s) && IsRun(s, steps) && i < |s.callers|
    ensures i < |Exec(s, steps).callers| && Failures(steps, i) <= 3
    ensures var pc := Exec(s, steps).callers[i].pc;
            && (pc.Unlocking? || pc.WaitTable? || pc.Unregistering? || pc.Done? ==> Ended(steps, i) || Failures(steps, i) == 3)
            && (pc.Request? ==> pc.attempt == Failures(steps, i) + 1)
            && (Enabled(Exec(s, steps), Step(i, SetupFails)) <==> pc.Request? && Failures(steps, i) == 0)
  {
    FitsRun(s, steps, i, 0, false);
  }
}
