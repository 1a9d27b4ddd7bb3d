/** What one whole pin pass of a PodRestore achieves for each of its checkpoint paths, whatever else
    goes on meanwhile. */
module PinPass {
  import opened Common
  import opened PinMarkers
  import opened PinProtocol
  import opened PinGuarantees

  // ---------- what is about to be renamed onto a marker ----------

  /** A marker that a pin by o is about to write lists o, and the temporary file that o is about to
      rename holds what was to be written. */
  predicate Prepared(s: State, o: string) {
    var pc := PcOf(s, o);
    && (pc.PinWrite? || pc.PinRename? ==> pc.m.Managed? && o in pc.m.owners)
    && (pc.PinRename? || pc.UnpinRename? ==>
          HasPath(s, o, pc.i) && PathOf(s, o) in s.temp && s.temp[PathOf(s, o)] == pc.m)
  }

  /** A pin leaves a user's marker and one that lists its owner alone, and makes any other list it. */
  lemma PinMarkerLists(m: Option<Marker>, o: string)
    ensures PinMarker(m, o) == m <==> m.Some? && (m.value.Unmanaged? || o in m.value.owners)
    ensures PinMarker(m, o) != m ==>
              PinMarker(m, o).Some? && PinMarker(m, o).value.Managed? && o in PinMarker(m, o).value.owners
  {
    if m.Some? && m.value.Managed? {
      var os := m.value.owners;
      assert (os + [o])[..|os|] == os;
      InsertMembers(SortOwners(os), o);
    }
  }

  lemma PinKeepsPrepared(s: State, x: string, a: PinAction, o: string)
    requires Inv(s) && PinEnabled(s, x, a) && Prepared(s, o)
    ensures Prepared(PinApply(s, x, a), o)
  {
    if x == o && a.ReadForPin? { PinMarkerLists(MarkerAt(s, PathOf(s, o)), o); }
    if x != o { assert PcOf(PinApply(s, x, a), o) == PcOf(s, o); }
  }

  lemma UnpinKeepsPrepared(s: State, x: string, b: UnpinAction, o: string)
    requires Inv(s) && UnpinEnabled(s, x, b) && Prepared(s, o)
    ensures Prepared(UnpinApply(s, x, b), o)
  {
    if x != o { assert PcOf(UnpinApply(s, x, b), o) == PcOf(s, o); }
  }

  lemma OutsideKeepsPrepared(s: State, e: OutsideAction, o: string)
    requires Inv(s) && OutsideEnabled(s, e) && Prepared(s, o)
    ensures Prepared(OutsideApply(s, e), o)
  {
    assert OutsideApply(s, e).pcs == s.pcs && OutsideApply(s, e).temp == s.temp;
  }

  lemma StepKeepsPrepared(s: State, step: Step, o: string)
    requires Inv(s) && Enabled(s, step) && Prepared(s, o)
    ensures Prepared(Apply(s, step), o)
  {
    match step
    case Outside(e) => OutsideKeepsPrepared(s, e, o);
    case Pin(x, a) => PinKeepsPrepared(s, x, a, o);
    case Unpin(x, b) => UnpinKeepsPrepared(s, x, b, o);
    case Collect(c, g) => CollectLeaves(s, c, g); assert CollectApply(s, c, g).temp == s.temp;
    case Crash =>
  }

  lemma {:induction false} RunKeepsPrepared(s: State, steps: seq<Step>, o: string)
    requires Inv(s) && IsRun(s, steps) && Prepared(s, o)
    ensures Prepared(Exec(s, steps), o)
    decreases |steps|
  {
    if steps != [] {
      StepKeepsPrepared(s, steps[0], o);
      StepKeepsInv(s, steps[0]);
      RunKeepsPrepared(Apply(s, steps[0]), steps[1..], o);
    }
  }

  /** In every run, what a rename puts in place of a marker is the temporary file written for it. */
  lemma RenamesWhatItWrote(s: State, steps: seq<Step>, step: Step, o: string)
    requires Initial(s) && IsRun(s, steps) && Enabled(Exec(s, steps), step)
    requires step == Pin(o, CommitPin) || step == Unpin(o, CommitUnpin)
    ensures var e, e' := Exec(s, steps), Apply(Exec(s, steps), step);
            var p := PathOf(e, o);
            p in e.temp && MarkerAt(e', p) == Some(e.temp[p]) && e'.temp == e.temp - {p}
  {
    InitialInv(s);
    RunKeepsPrepared(s, steps, o);
  }

  // ---------- one pass ----------

  /** The reconciler of o is in its pin loop. */
  predicate Pinning(s: State, o: string) {
    PcOf(s, o).PinLoop? || PcOf(s, o).PinWait? || InPinSection(PcOf(s, o))
  }

  /** The step is o's own, at path k of its loop. */
  predicate OwnAt(s: State, step: Step, o: string, k: nat) {
    step.Pin? && step.o == o && PinEnabled(s, o, step.a) && Pinning(s, o) && PcOf(s, o).i == k && HasPath(s, o, k)
  }

  /** o passes path k over: its archive is not there, cannot be looked for, or a file operation fails. */
  predicate Misses(s: State, step: Step, o: string, k: nat) {
    OwnAt(s, step, o, k) &&
    ((step.a.StatForPin? && s.restores[o].paths[k] !in s.archives) || step.a.StatFails? || step.a.GiveUpPin?)
  }

  predicate UserMarker(s: State, p: string) { p in s.keep && s.keep[p].Unmanaged? }

  /** o finds a user's marker on path k. */
  predicate Respects(s: State, step: Step, o: string, k: nat) {
    OwnAt(s, step, o, k) && step.a.ReadForPin? && UserMarker(s, s.restores[o].paths[k])
  }

  /** o is on the marker of path k: it reads its name there, or its rename puts it there. */
  predicate Holds(s: State, step: Step, o: string, k: nat) {
    OwnAt(s, step, o, k) &&
    ((step.a.ReadForPin? && o in OwnersAt(s, s.restores[o].paths[k])) ||
     (step.a.CommitPin? && o in OwnersAt(PinApply(s, o, CommitPin), s.restores[o].paths[k])))
  }

  predicate Handles(s: State, step: Step, o: string, k: nat) {
    Misses(s, step, o, k) || Respects(s, step, o, k) || Holds(s, step, o, k)
  }

  /** Not the end of the pass of o, neither regular nor by a crash. */
  predicate Within(step: Step, o: string) { step != Crash && step != Pin(o, EndPin) }

  lemma OwnStepHandles(s: State, a: PinAction, o: string)
    requires Inv(s) && PinEnabled(s, o, a) && Pinning(s, o) && Prepared(s, o) && !a.EndPin?
    ensures var s', i := PinApply(s, o, a), PcOf(s, o).i;
            && Pinning(s', o) && s'.restores == s.restores
            && PcOf(s', o).i == (if Handles(s, Pin(o, a), o, i) then i + 1 else i)
  {
    if a.ReadForPin? { PinMarkerLists(MarkerAt(s, PathOf(s, o)), o); }
  }

  lemma OutsideLeaves(s: State, e: OutsideAction, o: string)
    requires Inv(s) && OutsideEnabled(s, e) && Pinning(s, o)
    ensures var s' := OutsideApply(s, e);
            && s'.pcs == s.pcs && o in s.restores && o in s'.restores && s'.restores[o].paths == s.restores[o].paths
  {
    assert o in s.restores && s.restores[o].finalizer;
  }

  lemma OtherStepLeaves(s: State, step: Step, o: string)
    requires Inv(s) && Enabled(s, step) && Pinning(s, o) && step != Crash && !(step.Pin? && step.o == o)
    ensures var s' := Apply(s, step);
            && PcOf(s', o) == PcOf(s, o) && o in s.restores && o in s'.restores
            && s'.restores[o].paths == s.restores[o].paths
  {
    match step
    case Outside(e) => OutsideLeaves(s, e, o);
    case Pin(x, a) => OtherPinLeaves(s, x, a, o);
    case Unpin(x, b) => assert x != o; OtherUnpinLeaves(s, x, b, o);
    case Collect(c, g) => CollectLeaves(s, c, g);
  }

  lemma OtherPinLeaves(s: State, x: string, a: PinAction, o: string)
    requires PinEnabled(s, x, a) && x != o
    ensures var s' := PinApply(s, x, a);
            && PcOf(s', o) == PcOf(s, o) && (o in s'.restores <==> o in s.restores)
            && (o in s.restores ==> s'.restores[o] == s.restores[o])
  {}

  lemma OtherUnpinLeaves(s: State, x: string, b: UnpinAction, o: string)
    requires UnpinEnabled(s, x, b) && x != o
    ensures var s' := UnpinApply(s, x, b);
            && PcOf(s', o) == PcOf(s, o) && (o in s'.restores <==> o in s.restores)
            && (o in s.restores ==> s'.restores[o] == s.restores[o])
  {}

  /** A pass goes on to the next path exactly by handling the one at hand. */
  lemma PassAdvances(s: State, step: Step, o: string)
    requires Inv(s) && Enabled(s, step) && Pinning(s, o) && Prepared(s, o) && Within(step, o)
    ensures var s', i := Apply(s, step), PcOf(s, o).i;
            && Pinning(s', o) && o in s.restores && o in s'.restores && s'.restores[o].paths == s.restores[o].paths
            && PcOf(s', o).i == (if Handles(s, step, o, i) then i + 1 else i)
  {
    if step.Pin? && step.o == o { OwnStepHandles(s, step.a, o); } else { OtherStepLeaves(s, step, o); }
  }

  predicate HandledIn(s: State, steps: seq<Step>, o: string, k: nat)
    requires IsRun(s, steps)
    decreases |steps|
  {
    steps != [] && (Handles(s, steps[0], o, k) || HandledIn(Apply(s, steps[0]), steps[1..], o, k))
  }

  lemma {:induction false} PassHandles(s: State, steps: seq<Step>, o: string, k: nat)
    requires Inv(s) && IsRun(s, steps) && Pinning(s, o) && Prepared(s, o)
    requires forall st :: st in steps ==> Within(st, o)
    ensures var e := Exec(s, steps);
            && Pinning(e, o) && o in s.restores && o in e.restores && e.restores[o].paths == s.restores[o].paths
            && PcOf(s, o).i <= PcOf(e, o).i
            && (PcOf(s, o).i <= k < PcOf(e, o).i ==> HandledIn(s, steps, o, k))
    decreases |steps|
  {
    if steps != [] {
      PassAdvances(s, steps[0], o);
      StepKeepsPrepared(s, steps[0], o);
      StepKeepsInv(s, steps[0]);
      PassHandles(Apply(s, steps[0]), steps[1..], o, k);
    }
  }

  /** From e on, o starts to pin, these steps follow, and then its pass ends. */
  predicate Pass(e: State, o: string, during: seq<Step>) {
    && PinEnabled(e, o, StartPin) && IsRun(PinApply(e, o, StartPin), during)
    && (forall st :: st in during ==> Within(st, o))
    && PinEnabled(Exec(PinApply(e, o, StartPin), during), o, EndPin)
  }

  /** In every run, a pass that ends leaves no checkpoint out: for each path of the PodRestore o has
      read its name on the marker or put it there, or found a user's marker, or found no archive, or a
      file operation has failed. */
  lemma PassHandlesEveryPath(s: State, before: seq<Step>, o: string, during: seq<Step>, k: nat)
    requires Initial(s) && IsRun(s, before) && Pass(Exec(s, before), o, during)
    requires HasPath(Exec(s, before), o, k)
    ensures HandledIn(PinApply(Exec(s, before), o, StartPin), during, o, k)
  {
    ReachedInv(s, before);
    PinKeepsInv(Exec(s, before), o, StartPin);
    PassHandles(PinApply(Exec(s, before), o, StartPin), during, o, k);
  }

  // ---------- who is pinned when the pass ends ----------

  predicate MissedIn(s: State, steps: seq<Step>, o: string, k: nat)
    requires IsRun(s, steps)
    decreases |steps|
  {
    steps != [] && (Misses(s, steps[0], o, k) || MissedIn(Apply(s, steps[0]), steps[1..], o, k))
  }

  /** A pass does not come back to a path. */
  lemma {:induction false} NotMissedAgain(s: State, steps: seq<Step>, o: string, k: nat)
    requires Inv(s) && IsRun(s, steps) && Pinning(s, o) && Prepared(s, o) && k < PcOf(s, o).i
    requires forall st :: st in steps ==> Within(st, o)
    ensures !MissedIn(s, steps, o, k)
    decreases |steps|
  {
    if steps != [] {
      PassAdvances(s, steps[0], o);
      StepKeepsPrepared(s, steps[0], o);
      StepKeepsInv(s, steps[0]);
      NotMissedAgain(Apply(s, steps[0]), steps[1..], o, k);
    }
  }

  /** Path k is p, and from s on these steps do not miss it. */
  predicate Reaches(s: State, steps: seq<Step>, o: string, p: string, k: nat)
    requires IsRun(s, steps)
  {
    HasPath(s, o, k) && s.restores[o].paths[k] == p && !MissedIn(s, steps, o, k)
  }

  /** Some path from the one at hand up to here is p and is not missed. */
  predicate ReachesBefore(s: State, steps: seq<Step>, o: string, p: string, n: nat)
    requires IsRun(s, steps) && Pinning(s, o)
  {
    exists k :: PcOf(s, o).i <= k < n && Reaches(s, steps, o, p, k)
  }

  lemma OwnersInPass(s: State, step: Step, o: string, p: string)
    requires Inv(s) && Enabled(s, step) && Pinning(s, o) && Prepared(s, o) && Within(step, o)
    requires p !in s.torn && !UserTouches(step, p) && !UserMarker(s, p)
    ensures var s', i := Apply(s, step), PcOf(s, o).i;
            && (o in OwnersAt(s', p) <==>
                o in OwnersAt(s, p) || (Holds(s, step, o, i) && s.restores[o].paths[i] == p))
            && !UserMarker(s', p) && p !in s'.torn
  {
    StepRefinesOwners(s, step, p);
    TornStep(s, step, p);
    NoUserMarkerStep(s, step, p);
  }

  lemma NoUserMarkerStep(s: State, step: Step, p: string)
    requires Inv(s) && Enabled(s, step) && p !in s.torn && !UserTouches(step, p) && !UserMarker(s, p)
    ensures !UserMarker(Apply(s, step), p)
  {
    match step
    case Outside(e) =>
    case Pin(x, a) => PinMakesNoUserMarker(s, x, a, p);
    case Unpin(x, b) => UnpinMakesNoUserMarker(s, x, b, p);
    case Collect(c, g) => CollectLeaves(s, c, g);
    case Crash =>
  }

  lemma PinMakesNoUserMarker(s: State, x: string, a: PinAction, p: string)
    requires Inv(s) && PinEnabled(s, x, a) && p !in s.torn && !UserMarker(s, p)
    ensures !UserMarker(PinApply(s, x, a), p)
  {
    if a.CommitPin? {
      if p == PathOf(s, x) { CommitPinOwners(s, x); }
    } else {
      assert PinApply(s, x, a).keep == s.keep;
    }
  }

  lemma UnpinMakesNoUserMarker(s: State, x: string, b: UnpinAction, p: string)
    requires Inv(s) && UnpinEnabled(s, x, b) && p !in s.torn && !UserMarker(s, p)
    ensures !UserMarker(UnpinApply(s, x, b), p)
  {
    if !b.CommitUnpin? && !b.RemoveMarker? { assert UnpinApply(s, x, b).keep == s.keep; }
  }

  lemma {:induction false} PinnedByPass(s: State, steps: seq<Step>, o: string, p: string)
    requires Inv(s) && IsRun(s, steps) && Pinning(s, o) && Prepared(s, o)
    requires forall st :: st in steps ==> Within(st, o) && !UserTouches(st, p)
    requires p !in s.torn && !UserMarker(s, p)
    ensures Pinning(Exec(s, steps), o)
    ensures o in OwnersAt(Exec(s, steps), p) <==>
            o in OwnersAt(s, p) || ReachesBefore(s, steps, o, p, PcOf(Exec(s, steps), o).i)
    decreases |steps|
  {
    PassHandles(s, steps, o, 0);
    if steps != [] {
      var s', rest, e := Apply(s, steps[0]), steps[1..], Exec(s, steps);
      PassAdvances(s, steps[0], o);
      StepKeepsPrepared(s, steps[0], o);
      StepKeepsInv(s, steps[0]);
      OwnersInPass(s, steps[0], o, p);
      PinnedByPass(s', rest, o, p);
      PassHandles(s', rest, o, 0);
      PassUnrolls(s, steps, o, p, PcOf(e, o).i);
    }
  }

  /** The first step of a pass settles the path at hand, or none. */
  lemma PassUnrollsAt(s: State, steps: seq<Step>, o: string, p: string, k: nat)
    requires Inv(s) && IsRun(s, steps) && Pinning(s, o) && Prepared(s, o) && steps != []
    requires (forall st :: st in steps ==> Within(st, o)) && !UserMarker(s, p) && PcOf(s, o).i <= k
    ensures var s', i := Apply(s, steps[0]), PcOf(s, o).i;
            && Pinning(s', o) && i <= PcOf(s', o).i <= i + 1
            && (Reaches(s, steps, o, p, k) <==>
                if k < PcOf(s', o).i then Holds(s, steps[0], o, k) && s.restores[o].paths[k] == p
                else Reaches(s', steps[1..], o, p, k))
  {
    PassAdvances(s, steps[0], o);
    StepKeepsPrepared(s, steps[0], o);
    StepKeepsInv(s, steps[0]);
    var s' := Apply(s, steps[0]);
    if k < PcOf(s', o).i { NotMissedAgain(s', steps[1..], o, k); }
  }

  lemma PassUnrolls(s: State, steps: seq<Step>, o: string, p: string, n: nat)
    requires Inv(s) && IsRun(s, steps) && Pinning(s, o) && Prepared(s, o) && steps != []
    requires (forall st :: st in steps ==> Within(st, o)) && !UserMarker(s, p)
    requires Pinning(Apply(s, steps[0]), o) && PcOf(Apply(s, steps[0]), o).i <= n
    ensures ReachesBefore(s, steps, o, p, n) <==>
            (Holds(s, steps[0], o, PcOf(s, o).i) && s.restores[o].paths[PcOf(s, o).i] == p) ||
            ReachesBefore(Apply(s, steps[0]), steps[1..], o, p, n)
  {
    var s', i := Apply(s, steps[0]), PcOf(s, o).i;
    PassAdvances(s, steps[0], o);
    PassUnrollsAt(s, steps, o, p, i);
    if k :| i <= k < n && Reaches(s, steps, o, p, k) { PassUnrollsAt(s, steps, o, p, k); }
    if k :| PcOf(s', o).i <= k < n && Reaches(s', steps[1..], o, p, k) { PassUnrollsAt(s, steps, o, p, k); }
  }

  /** Exactly who is pinned when a pass ends: unless a user marks p or touches its marker, o is on the
      marker of p if and only if it was before or the pass has reached p without missing it. So a pass
      in which every archive is there and no file operation fails pins every checkpoint. */
  lemma PassPinsExactly(s: State, before: seq<Step>, o: string, during: seq<Step>, p: string)
    requires Initial(s) && IsRun(s, before) && Pass(Exec(s, before), o, during)
    requires p !in Exec(s, before).torn && !UserMarker(Exec(s, before), p)
    requires forall st :: st in during ==> !UserTouches(st, p)
    ensures var b := PinApply(Exec(s, before), o, StartPin);
            o in OwnersAt(Exec(b, during), p) <==>
            o in OwnersAt(b, p) || exists k: nat :: Reaches(b, during, o, p, k)
  {
    ReachedInv(s, before);
    var b := PinApply(Exec(s, before), o, StartPin);
    PinKeepsInv(Exec(s, before), o, StartPin);
    PinnedByPass(b, during, o, p);
    PassHandles(b, during, o, 0);
    if k: nat :| Reaches(b, during, o, p, k) { assert PcOf(b, o).i <= k < PcOf(Exec(b, during), o).i; }
  }

  /** A pass that does not miss a checkpoint of the PodRestore leaves it pinned, users aside. */
  lemma PassPins(s: State, before: seq<Step>, o: string, during: seq<Step>, k: nat)
    requires Initial(s) && IsRun(s, before) && Pass(Exec(s, before), o, during) && HasPath(Exec(s, before), o, k)
    requires !MissedIn(PinApply(Exec(s, before), o, StartPin), during, o, k)
    requires var p := Exec(s, before).restores[o].paths[k];
             && p !in Exec(s, before).torn && !UserMarker(Exec(s, before), p)
             && forall st :: st in during ==> !UserTouches(st, p)
    ensures o in OwnersAt(Exec(PinApply(Exec(s, before), o, StartPin), during), Exec(s, before).restores[o].paths[k])
  {
    var p := Exec(s, before).restores[o].paths[k];
    PassPinsExactly(s, before, o, during, p);
    assert Reaches(PinApply(Exec(s, before), o, StartPin), during, o, p, k);
  }

  // ---------- every pass is short ----------

  /** A step of o inside a pin or unpin pass. */
  predicate OwnInPass(step: Step, o: string) {
    || (step.Pin? && step.o == o && !step.a.StartPin? && !step.a.AddFinalizer?)
    || (step.Unpin? && step.o == o && !step.b.StartUnpin?)
  }

  predicate Starts(step: Step, o: string) { step == Pin(o, StartPin) || step == Unpin(o, StartUnpin) }

  /** The paths still ahead of the reconciler of o, the one at hand included. */
  function Ahead(s: State, o: string): nat {
    if PcOf(s, o).Idle? || !HasPath(s, o, PcOf(s, o).i) then 0 else |s.restores[o].paths| - PcOf(s, o).i
  }

  /** Steps that the pass of o may still take, five for every path. */
  function StepsLeft(s: State, o: string): int {
    match PcOf(s, o)
    case Idle => 0
    case PinLoop(_) => 5 * Ahead(s, o) + 1
    case PinWait(_) => 5 * Ahead(s, o)
    case PinRead(_) => 5 * Ahead(s, o) - 1
    case PinWrite(_, _) => 5 * Ahead(s, o) - 2
    case PinRename(_, _) => 5 * Ahead(s, o) - 3
    case UnpinLoop(_) => 5 * Ahead(s, o) + 1
    case UnpinRead(_) => 5 * Ahead(s, o)
    case UnpinWrite(_, _) => 5 * Ahead(s, o) - 1
    case UnpinRename(_, _) => 5 * Ahead(s, o) - 2
    case UnpinRemove(_) => 5 * Ahead(s, o) - 1
  }

  lemma LeftNonNegative(s: State, o: string)
    requires Inv(s)
    ensures StepsLeft(s, o) >= 0
  {}

  lemma OwnPinStepCounts(s: State, a: PinAction, o: string)
    requires Inv(s) && PinEnabled(s, o, a) && OwnInPass(Pin(o, a), o)
    ensures StepsLeft(PinApply(s, o, a), o) < StepsLeft(s, o)
  {}

  lemma OwnUnpinStepCounts(s: State, b: UnpinAction, o: string)
    requires Inv(s) && UnpinEnabled(s, o, b) && OwnInPass(Unpin(o, b), o)
    ensures StepsLeft(UnpinApply(s, o, b), o) < StepsLeft(s, o)
  {}

  lemma OutsideStepCounts(s: State, e: OutsideAction, o: string)
    requires Inv(s) && OutsideEnabled(s, e)
    ensures StepsLeft(OutsideApply(s, e), o) == StepsLeft(s, o)
  {
    assert OutsideApply(s, e).pcs == s.pcs;
    if !PcOf(s, o).Idle? {
      assert o in s.restores && s.restores[o].finalizer;
      assert o in OutsideApply(s, e).restores && OutsideApply(s, e).restores[o].paths == s.restores[o].paths;
    }
  }

  lemma AddFinalizerCounts(s: State, o: string)
    requires PinEnabled(s, o, AddFinalizer)
    ensures StepsLeft(PinApply(s, o, AddFinalizer), o) == StepsLeft(s, o)
  {}

  lemma StepCounts(s: State, step: Step, o: string)
    requires Inv(s) && Enabled(s, step) && !Starts(step, o)
    ensures StepsLeft(Apply(s, step), o) + (if OwnInPass(step, o) then 1 else 0) <= StepsLeft(s, o)
  {
    match step
    case Outside(e) => OutsideStepCounts(s, e, o);
    case Pin(x, a) =>
      if x != o { OtherPinLeaves(s, x, a, o); }
      else if a.AddFinalizer? { AddFinalizerCounts(s, o); }
      else { OwnPinStepCounts(s, a, o); }
    case Unpin(x, b) => if x != o { OtherUnpinLeaves(s, x, b, o); } else { OwnUnpinStepCounts(s, b, o); }
    case Collect(c, g) => CollectLeaves(s, c, g);
    case Crash => LeftNonNegative(s, o);
  }

  /** The steps of o's own passes in a run. */
  function OwnSteps(steps: seq<Step>, o: string): nat {
    if steps == [] then 0 else (if OwnInPass(steps[0], o) then 1 else 0) + OwnSteps(steps[1..], o)
  }

  lemma {:induction false} RunCounts(s: State, steps: seq<Step>, o: string)
    requires Inv(s) && IsRun(s, steps) && forall st :: st in steps ==> !Starts(st, o)
    ensures OwnSteps(steps, o) + StepsLeft(Exec(s, steps), o) <= StepsLeft(s, o)
    decreases |steps|
  {
    if steps != [] {
      StepCounts(s, steps[0], o);
      StepKeepsInv(s, steps[0]);
      RunCounts(Apply(s, steps[0]), steps[1..], o);
    }
  }

  /** Progress in every run: whatever others do, a pin or unpin pass takes at most five steps for each
      path of the PodRestore and one to end, so with NeverStuck it does end. */
  lemma PassIsShort(s: State, before: seq<Step>, start: Step, o: string, during: seq<Step>)
    requires Initial(s) && IsRun(s, before) && Starts(start, o) && Enabled(Exec(s, before), start)
    requires IsRun(Apply(Exec(s, before), start), during) && forall st :: st in during ==> !Starts(st, o)
    ensures o in Exec(s, before).restores && OwnSteps(during, o) <= 5 * |Exec(s, before).restores[o].paths| + 1
  {
    ReachedInv(s, before);
    var b := Apply(Exec(s, before), start);
    StepKeepsInv(Exec(s, before), start);
    RunCounts(b, during, o);
    RunKeepsInv(b, during);
    LeftNonNegative(Exec(b, during), o);
  }

  /** Nothing is taken for granted about the surroundings: in every state the kubelet, users and whoever
      removes archives may act, and the operator may crash. */
  lemma AnythingMayHappen(s: State, p: string, content: string)
    ensures Enabled(s, Crash) && OutsideEnabled(s, KubeletWrites(p)) && OutsideEnabled(s, ArchiveLost(p))
    ensures OutsideEnabled(s, UserWrites(p, content)) && (p in s.keep ==> OutsideEnabled(s, UserRemoves(p)))
  {}

  /** Whatever a reconciler is about to do with a file or the API server may fail. */
  lemma AnyPinStepMayFail(s: State, o: string, a: PinAction)
    requires PinEnabled(s, o, a)
    ensures a.StatForPin? ==> PinEnabled(s, o, StatFails)
    ensures a.ReadForPin? || a.WriteForPin? || a.CommitPin? ==> PinEnabled(s, o, GiveUpPin)
  {}

  lemma AnyUnpinStepMayFail(s: State, o: string, b: UnpinAction)
    requires UnpinEnabled(s, o, b)
    ensures b.ReadForUnpin? || b.WriteForUnpin? || b.CommitUnpin? || b.RemoveMarker? ==> UnpinEnabled(s, o, GiveUpUnpin)
    ensures b.DropFinalizer? ==> UnpinEnabled(s, o, DropFails)
  {}
}
