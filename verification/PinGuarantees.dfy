/** What the pin protocol guarantees in every run, and exactly when it does not. */
module PinGuarantees {
  import opened Common
  import opened PinMarkers
  import opened PinProtocol

  // ---------- archives ----------

  /** The step deletes archive p for a collector pass. */
  predicate Unlinks(s: State, step: Step, p: string) {
    step.Collect? && step.g.Unlink? && step.c < |s.collectors| && s.collectors[step.c].Unlinking? &&
    s.collectors[step.c].p == p
  }

  /** It does so although it could not look for the marker. */
  predicate UnlinksBlindly(s: State, step: Step, p: string) { Unlinks(s, step, p) && s.collectors[step.c].blind }

  lemma ArchiveStep(s: State, step: Step, p: string)
    requires Enabled(s, step)
    ensures p in Apply(s, step).archives <==>
            (p in s.archives && !Unlinks(s, step, p) && step != Outside(ArchiveLost(p))) || step == Outside(KubeletWrites(p))
  {
    match step
    case Outside(e) =>
    case Pin(o, a) => assert PinApply(s, o, a).archives == s.archives;
    case Unpin(o, b) => assert UnpinApply(s, o, b).archives == s.archives;
    case Collect(c, g) =>
    case Crash =>
  }

  /** The operator deletes an archive only by a collector's unlink, and while it has a marker only if
      the collector's look at the marker failed or a user touched the marker inside the mutex. */
  lemma UnlinksOnlyUnmarked(s: State, steps: seq<Step>, step: Step, p: string)
    requires Initial(s) && IsRun(s, steps) && Enabled(Exec(s, steps), step)
    requires p in Exec(s, steps).archives && p !in Apply(Exec(s, steps), step).archives
    ensures Unlinks(Exec(s, steps), step, p) || step == Outside(ArchiveLost(p))
    ensures Unlinks(Exec(s, steps), step, p) && p in Exec(s, steps).keep ==>
              UnlinksBlindly(Exec(s, steps), step, p) || p in Exec(s, steps).torn
  {
    ReachedInv(s, steps);
    ArchiveStep(Exec(s, steps), step, p);
  }

  // ---------- users inside the mutex ----------

  /** The marker of an archive is torn exactly by a user who touches it while the operator is inside
      the mutex for it. */
  lemma TornStep(s: State, step: Step, p: string)
    requires Enabled(s, step)
    ensures p in Apply(s, step).torn <==> p in s.torn || (UserTouches(step, p) && SectionOn(s, p))
  {
    match step
    case Outside(e) =>
    case Pin(o, a) => assert PinApply(s, o, a).torn == s.torn;
    case Unpin(o, b) => assert UnpinApply(s, o, b).torn == s.torn;
    case Collect(c, g) => CollectLeaves(s, c, g);
    case Crash =>
  }

  lemma {:induction false} TornGrows(s: State, steps: seq<Step>, p: string)
    requires IsRun(s, steps) && p in s.torn
    ensures p in Exec(s, steps).torn
    decreases |steps|
  {
    if steps != [] {
      TornStep(s, steps[0], p);
      TornGrows(Apply(s, steps[0]), steps[1..], p);
    }
  }

  // ---------- owners ----------

  predicate UserTouches(step: Step, p: string) {
    step.Outside? && ((step.e.UserWrites? && step.e.p == p) || step == Outside(UserRemoves(p)))
  }

  /** The step puts o on the marker of p. */
  predicate Pins(s: State, step: Step, o: string, p: string) {
    step == Pin(o, CommitPin) && PinEnabled(s, o, CommitPin) && PathOf(s, o) == p
  }

  /** The step takes o off the marker of p. */
  predicate Unpins(s: State, step: Step, o: string, p: string) {
    || (step == Unpin(o, CommitUnpin) && UnpinEnabled(s, o, CommitUnpin) && PathOf(s, o) == p)
    || (step == Unpin(o, RemoveMarker) && UnpinEnabled(s, o, RemoveMarker) && PathOf(s, o) == p)
  }

  /** What a step is meant to do to the set of owners of p. */
  function NextOwners(s: State, step: Step, p: string, owners: set<string>): set<string> {
    if step.Pin? && Pins(s, step, step.o, p) then owners + {step.o}
    else if step.Unpin? && Unpins(s, step, step.o, p) then owners - {step.o}
    else if UserTouches(step, p) then {}
    else owners
  }

  /** The operator leaves a user's marker alone. */
  predicate UserMarkerStays(s: State, step: Step, p: string, s': State) {
    p in s.keep && s.keep[p].Unmanaged? && !UserTouches(step, p) ==> p in s'.keep && s'.keep[p] == s.keep[p]
  }

  lemma OutsideRefines(s: State, e: OutsideAction, p: string)
    requires OutsideEnabled(s, e)
    ensures OwnersAt(OutsideApply(s, e), p) == NextOwners(s, Outside(e), p, OwnersAt(s, p))
    ensures UserMarkerStays(s, Outside(e), p, OutsideApply(s, e))
  {}

  lemma PinRefinesOwners(s: State, o: string, a: PinAction, p: string)
    requires Inv(s) && PinEnabled(s, o, a) && p !in s.torn
    ensures OwnersAt(PinApply(s, o, a), p) == NextOwners(s, Pin(o, a), p, OwnersAt(s, p))
    ensures UserMarkerStays(s, Pin(o, a), p, PinApply(s, o, a))
  {
    if a.CommitPin? {
      CommitPinLists(s, o, p);
      assert p != PathOf(s, o) ==> MarkerAt(PinApply(s, o, a), p) == MarkerAt(s, p);
    } else {
      assert PinApply(s, o, a).keep == s.keep;
    }
  }

  lemma UnpinRefinesOwners(s: State, o: string, b: UnpinAction, p: string)
    requires Inv(s) && UnpinEnabled(s, o, b) && p !in s.torn
    ensures OwnersAt(UnpinApply(s, o, b), p) == NextOwners(s, Unpin(o, b), p, OwnersAt(s, p))
    ensures UserMarkerStays(s, Unpin(o, b), p, UnpinApply(s, o, b))
  {
    if b.CommitUnpin? || b.RemoveMarker? {
      CommitUnpinOwners(s, o, b, p);
      assert p != PathOf(s, o) ==> MarkerAt(UnpinApply(s, o, b), p) == MarkerAt(s, p);
    } else {
      assert UnpinApply(s, o, b).keep == s.keep;
    }
  }

  /** Markers change only by commits, each of which adds or removes the committing owner alone, and by
      users; a user's marker is changed by users alone. This holds of every marker that no user touched
      while the operator was inside the mutex for it. */
  lemma StepRefinesOwners(s: State, step: Step, p: string)
    requires Inv(s) && Enabled(s, step) && p !in s.torn
    ensures OwnersAt(Apply(s, step), p) == NextOwners(s, step, p, OwnersAt(s, p))
    ensures UserMarkerStays(s, step, p, Apply(s, step))
  {
    match step
    case Outside(e) => OutsideRefines(s, e, p);
    case Pin(o, a) => PinRefinesOwners(s, o, a, p);
    case Unpin(o, b) => UnpinRefinesOwners(s, o, b, p);
    case Collect(c, g) => assert CollectApply(s, c, g).keep == s.keep;
    case Crash =>
  }

  /** The set of owners of p that a run is meant to leave. */
  function OwnersAlong(s: State, steps: seq<Step>, p: string, owners: set<string>): set<string>
    requires IsRun(s, steps)
    decreases |steps|
  {
    if steps == [] then owners
    else OwnersAlong(Apply(s, steps[0]), steps[1..], p, NextOwners(s, steps[0], p, owners))
  }

  lemma {:induction false} RunRefinesOwners(s: State, steps: seq<Step>, p: string)
    requires Inv(s) && IsRun(s, steps) && p !in Exec(s, steps).torn
    ensures OwnersAt(Exec(s, steps), p) == OwnersAlong(s, steps, p, OwnersAt(s, p))
    decreases |steps|
  {
    if p in s.torn { TornGrows(s, steps, p); }
    if steps != [] {
      StepRefinesOwners(s, steps[0], p);
      StepKeepsInv(s, steps[0]);
      RunRefinesOwners(Apply(s, steps[0]), steps[1..], p);
    }
  }

  /** Refinement: in every run, failures and crashes between temporary file and rename included, the
      marker of an archive without a user marker exists iff owners are left, and lists exactly those,
      sorted, as long as no user touched it inside the mutex. */
  lemma MarkersRefineOwners(s: State, steps: seq<Step>, p: string)
    requires Initial(s) && IsRun(s, steps) && p !in Exec(s, steps).torn
    ensures var e, owners := Exec(s, steps), OwnersAlong(s, steps, p, {});
            && OwnersAt(e, p) == owners
            && ((MarkerAt(e, p).Some? && MarkerAt(e, p).value.Unmanaged?) || Represents(MarkerAt(e, p), owners))
  {
    InitialInv(s);
    ReachedInv(s, steps);
    RunRefinesOwners(s, steps, p);
  }

  // ---------- a pinned archive stays ----------

  predicate Pinned(s: State, o: string, p: string) { p in s.archives && o in OwnersAt(s, p) }

  /** What may end the protection of p by o: o's own unpin, a user at the marker, a collector that could
      not look at it, or somebody else who removes the archive. */
  predicate Disturbs(s: State, step: Step, o: string, p: string) {
    Unpins(s, step, o, p) || UserTouches(step, p) || UnlinksBlindly(s, step, p) || step == Outside(ArchiveLost(p))
  }

  lemma PinnedStep(s: State, step: Step, o: string, p: string)
    requires Inv(s) && Enabled(s, step) && Pinned(s, o, p) && p !in s.torn
    ensures Pinned(Apply(s, step), o, p) <==> !Disturbs(s, step, o, p)
  {
    StepRefinesOwners(s, step, p);
    ArchiveStep(s, step, p);
  }

  predicate StaysPinned(s: State, steps: seq<Step>, o: string, p: string)
    requires IsRun(s, steps)
    decreases |steps|
  {
    Pinned(s, o, p) && (steps == [] || StaysPinned(Apply(s, steps[0]), steps[1..], o, p))
  }

  predicate Undisturbed(s: State, steps: seq<Step>, o: string, p: string)
    requires IsRun(s, steps)
    decreases |steps|
  {
    steps == [] || (!Disturbs(s, steps[0], o, p) && Undisturbed(Apply(s, steps[0]), steps[1..], o, p))
  }

  /** Main safety, exactly: an archive that is there with an owner on its marker stays, and stays
      marked, throughout a run if and only if no step disturbs it; a collector that had already chosen
      it does not. */
  lemma {:induction false} PinnedArchiveStays(s: State, steps: seq<Step>, o: string, p: string)
    requires Inv(s) && IsRun(s, steps) && Pinned(s, o, p) && p !in s.torn
    ensures StaysPinned(s, steps, o, p) <==> Undisturbed(s, steps, o, p)
    decreases |steps|
  {
    if steps != [] {
      PinnedStep(s, steps[0], o, p);
      TornStep(s, steps[0], p);
      StepKeepsInv(s, steps[0]);
      if Pinned(Apply(s, steps[0]), o, p) { PinnedArchiveStays(Apply(s, steps[0]), steps[1..], o, p); }
    }
  }

  // ---------- from which moment on ----------

  /** o owns the mutex before each of these steps. */
  predicate HeldBy(s: State, steps: seq<Step>, o: string)
    requires IsRun(s, steps)
    decreases |steps|
  {
    steps == [] || (s.mutex == ByRestore(o) && HeldBy(Apply(s, steps[0]), steps[1..], o))
  }

  lemma HeldArchiveStep(s: State, step: Step, o: string, p: string)
    requires Inv(s) && Enabled(s, step) && s.mutex == ByRestore(o)
    ensures p in Apply(s, step).archives <==> StillThere([step], p, p in s.archives)
  {
    ArchiveStep(s, step, p);
    assert [step][..0] == [];
  }

  /** Whether p is there after these steps as far as kubelet and others decide, given that it was. */
  predicate StillThere(steps: seq<Step>, p: string, was: bool) {
    if steps == [] then was
    else
      var last := steps[|steps| - 1];
      if last == Outside(KubeletWrites(p)) then true
      else if last == Outside(ArchiveLost(p)) then false
      else StillThere(steps[..|steps| - 1], p, was)
  }

  lemma {:induction false} StillThereCons(step: Step, rest: seq<Step>, p: string, was: bool)
    ensures StillThere([step] + rest, p, was) == StillThere(rest, p, StillThere([step], p, was))
    decreases |rest|
  {
    if rest == [] {
      assert [step] + rest == [step];
    } else {
      var n := |rest| - 1;
      assert ([step] + rest)[..n + 1] == [step] + rest[..n];
      StillThereCons(step, rest[..n], p, was);
    }
  }

  /** While a reconciler owns the mutex the collector deletes nothing: an archive is there exactly as
      kubelet and others leave it. */
  lemma {:induction false} WhileLocked(s: State, steps: seq<Step>, o: string, p: string)
    requires Inv(s) && IsRun(s, steps) && HeldBy(s, steps, o)
    ensures p in Exec(s, steps).archives <==> StillThere(steps, p, p in s.archives)
    decreases |steps|
  {
    if steps != [] {
      HeldArchiveStep(s, steps[0], o, p);
      StepKeepsInv(s, steps[0]);
      WhileLocked(Apply(s, steps[0]), steps[1..], o, p);
      StillThereCons(steps[0], steps[1..], p, p in s.archives);
      assert steps == [steps[0]] + steps[1..];
    }
  }

  /** A pin by o from the lock to the commit: e is the state at the lock. */
  predicate PinWindow(e: State, o: string, during: seq<Step>) {
    && PinEnabled(e, o, LockForPin)
    && IsRun(PinApply(e, o, LockForPin), during) && HeldBy(PinApply(e, o, LockForPin), during, o)
    && PinEnabled(Exec(PinApply(e, o, LockForPin), during), o, CommitPin)
  }

  /** The state at the commit of the window, and the one behind it. */
  function AtCommit(e: State, o: string, during: seq<Step>): State
    requires PinWindow(e, o, during)
  {
    Exec(PinApply(e, o, LockForPin), during)
  }

  function BehindCommit(e: State, o: string, during: seq<Step>): State
    requires PinWindow(e, o, during)
  {
    PinApply(AtCommit(e, o, during), o, CommitPin)
  }

  lemma WindowInv(e: State, o: string, during: seq<Step>)
    requires Inv(e) && PinWindow(e, o, during)
    ensures Inv(PinApply(e, o, LockForPin)) && Inv(AtCommit(e, o, during)) && Inv(BehindCommit(e, o, during))
  {
    PinKeepsInv(e, o, LockForPin);
    RunKeepsInv(PinApply(e, o, LockForPin), during);
    PinKeepsInv(AtCommit(e, o, during), o, CommitPin);
  }

  /** A committed pin holds the archive exactly when the archive was there as the mutex was taken, or
      written since, and nobody but the operator removed it meanwhile. */
  lemma PinTakesHold(e: State, o: string, during: seq<Step>)
    requires Inv(e) && PinWindow(e, o, during)
    requires PathOf(AtCommit(e, o, during), o) !in AtCommit(e, o, during).torn
    ensures var p := PathOf(AtCommit(e, o, during), o);
            Pinned(BehindCommit(e, o, during), o, p) <==> StillThere(during, p, p in e.archives)
  {
    WindowInv(e, o, during);
    var c := AtCommit(e, o, during);
    CommitPinOwners(c, o);
    WhileLocked(PinApply(e, o, LockForPin), during, o, PathOf(c, o));
    ArchiveStep(c, Pin(o, CommitPin), PathOf(c, o));
  }

  /** From the lock of a pin in any run: the archive is protected throughout what follows exactly when
      it was there at the lock, or written since, and nothing disturbs it afterwards. So the collector
      defeats a committed pin exactly if it deletes the archive between the look at it and the lock. */
  lemma PinCommitProtects(s: State, before: seq<Step>, o: string, during: seq<Step>, later: seq<Step>)
    requires Initial(s) && IsRun(s, before) && PinWindow(Exec(s, before), o, during)
    requires IsRun(BehindCommit(Exec(s, before), o, during), later)
    requires PathOf(AtCommit(Exec(s, before), o, during), o) !in AtCommit(Exec(s, before), o, during).torn
    ensures var e := Exec(s, before);
            var p := PathOf(AtCommit(e, o, during), o);
            StaysPinned(BehindCommit(e, o, during), later, o, p) <==>
            StillThere(during, p, p in e.archives) && Undisturbed(BehindCommit(e, o, during), later, o, p)
  {
    ReachedInv(s, before);
    var e := Exec(s, before);
    WindowInv(e, o, during);
    PinTakesHold(e, o, during);
    var p := PathOf(AtCommit(e, o, during), o);
    if Pinned(BehindCommit(e, o, during), o, p) { PinnedArchiveStays(BehindCommit(e, o, during), later, o, p); }
  }

  // ---------- owners and finalizers ----------

  /** The step gives up an unpin of p by o, who is on the marker. */
  predicate GivesUp(s: State, step: Step, o: string, p: string) {
    step == Unpin(o, GiveUpUnpin) && UnpinEnabled(s, o, GiveUpUnpin) && PathOf(s, o) == p && o in OwnersAt(s, p)
  }

  /** The step writes the marker of p on behalf of o, or a user does. */
  predicate Settles(s: State, step: Step, o: string, p: string) {
    Pins(s, step, o, p) || Unpins(s, step, o, p) || UserTouches(step, p)
  }

  /** In the run an unpin of p by the listed owner o was given up, and since then neither o nor a user
      has written the marker; or so it was before, and still is. */
  predicate GivenUpSince(s: State, steps: seq<Step>, o: string, p: string, was: bool)
    requires IsRun(s, steps)
    decreases |steps|
  {
    if steps == [] then was
    else
      var now := if GivesUp(s, steps[0], o, p) then true else if Settles(s, steps[0], o, p) then false else was;
      GivenUpSince(Apply(s, steps[0]), steps[1..], o, p, now)
  }

  lemma PinForsakes(s: State, x: string, a: PinAction, o: string, p: string)
    requires PinEnabled(s, x, a)
    ensures (o, p) in PinApply(s, x, a).forsaken <==> (o, p) in s.forsaken && !Pins(s, Pin(x, a), o, p)
  {}

  lemma UnpinForsakes(s: State, x: string, b: UnpinAction, o: string, p: string)
    requires UnpinEnabled(s, x, b)
    ensures (o, p) in UnpinApply(s, x, b).forsaken <==>
            GivesUp(s, Unpin(x, b), o, p) || ((o, p) in s.forsaken && !Unpins(s, Unpin(x, b), o, p))
  {}

  lemma ForsakenStep(s: State, step: Step, o: string, p: string)
    requires Enabled(s, step)
    ensures (o, p) in Apply(s, step).forsaken <==>
            GivesUp(s, step, o, p) || ((o, p) in s.forsaken && !Settles(s, step, o, p))
  {
    match step
    case Outside(e) =>
    case Pin(x, a) => PinForsakes(s, x, a, o, p);
    case Unpin(x, b) => UnpinForsakes(s, x, b, o, p);
    case Collect(c, g) => CollectLeaves(s, c, g);
    case Crash =>
  }

  lemma {:induction false} ForsakenIsGivenUp(s: State, steps: seq<Step>, o: string, p: string)
    requires IsRun(s, steps)
    ensures (o, p) in Exec(s, steps).forsaken <==> GivenUpSince(s, steps, o, p, (o, p) in s.forsaken)
    decreases |steps|
  {
    if steps != [] {
      ForsakenStep(s, steps[0], o, p);
      ForsakenIsGivenUp(Apply(s, steps[0]), steps[1..], o, p);
    }
  }

  predicate HasFinalizer(s: State, o: string) { o in s.restores && s.restores[o].finalizer }

  /** Owners and finalizers in every run: a listed owner carries the finalizer and names the path, or
      its unpin was given up and nobody has written the marker since; and a PodRestore without the
      finalizer, or gone, is on a marker exactly in that case. */
  lemma ListedOwnersHaveFinalizer(s: State, steps: seq<Step>, o: string, p: string)
    requires Initial(s) && IsRun(s, steps) && p !in Exec(s, steps).torn
    ensures var e, forsaken := Exec(s, steps), GivenUpSince(s, steps, o, p, false);
            && (o in OwnersAt(e, p) ==> (HasFinalizer(e, o) && p in e.restores[o].paths) || forsaken)
            && (!HasFinalizer(e, o) ==> (o in OwnersAt(e, p) <==> forsaken))
  {
    ReachedInv(s, steps);
    var e := Exec(s, steps);
    ForsakenIsGivenUp(s, steps, o, p);
    if (o, p) in e.forsaken { assert (o, p).0 in OwnersAt(e, (o, p).1); }
    if o in OwnersAt(e, p) && !Entitled(e, o, p) { assert (o, p) in e.forsaken; }
  }

  // ---------- progress ----------

  /** The next step of a busy reconciler if nothing fails. */
  function OwnStep(s: State, o: string): Step {
    match PcOf(s, o)
    case Idle => Pin(o, StartPin)
    case PinLoop(i) => Pin(o, if HasPath(s, o, i) then StatForPin else EndPin)
    case PinWait(_) => Pin(o, LockForPin)
    case PinRead(_) => Pin(o, ReadForPin)
    case PinWrite(_, _) => Pin(o, WriteForPin)
    case PinRename(_, _) => Pin(o, CommitPin)
    case UnpinLoop(i) => Unpin(o, if HasPath(s, o, i) then LockForUnpin else DropFinalizer)
    case UnpinRead(_) => Unpin(o, ReadForUnpin)
    case UnpinWrite(_, _) => Unpin(o, WriteForUnpin)
    case UnpinRename(_, _) => Unpin(o, CommitUnpin)
    case UnpinRemove(_) => Unpin(o, RemoveMarker)
  }

  function PassStep(s: State, c: nat): Step
    requires c < |s.collectors|
  {
    Collect(c, match s.collectors[c]
               case NoArchive => LockForUnlink
               case Chosen(_) => LockForUnlink
               case Rechecking(_) => Recheck
               case Unlinking(_, _) => Unlink)
  }

  lemma BusyMoves(s: State, o: string)
    requires Inv(s) && !PcOf(s, o).Idle? && (s.mutex.Free? || InSection(PcOf(s, o)))
    ensures Enabled(s, OwnStep(s, o))
  {}

  lemma PassMoves(s: State, c: nat)
    requires c < |s.collectors| && !s.collectors[c].NoArchive? && (s.mutex.Free? || GcInSection(s.collectors[c]))
    ensures Enabled(s, PassStep(s, c))
  {}

  /** The step that goes on if nothing fails: of whoever owns the mutex, else of the given thread. */
  function GoesOn(s: State, own: Step): Step {
    match s.mutex
    case Free => own
    case ByRestore(h) => OwnStep(s, h)
    case ByCollector(h) => if h < |s.collectors| then PassStep(s, h) else own
  }

  /** No thread waits for ever because of the mutex: while a reconciler or a collector pass is under
      way, it or the owner of the mutex has a step. */
  lemma NeverStuck(s: State, steps: seq<Step>, o: string, c: nat)
    requires Initial(s) && IsRun(s, steps)
    ensures !PcOf(Exec(s, steps), o).Idle? ==> Enabled(Exec(s, steps), GoesOn(Exec(s, steps), OwnStep(Exec(s, steps), o)))
    ensures c < |Exec(s, steps).collectors| && !Exec(s, steps).collectors[c].NoArchive? ==>
              Enabled(Exec(s, steps), GoesOn(Exec(s, steps), PassStep(Exec(s, steps), c)))
  {
    ReachedInv(s, steps);
    var e := Exec(s, steps);
    match e.mutex
    case ByRestore(h) => BusyMoves(e, h);
    case ByCollector(h) => PassMoves(e, h);
    case Free =>
      if !PcOf(e, o).Idle? { BusyMoves(e, o); }
      if c < |e.collectors| && !e.collectors[c].NoArchive? { PassMoves(e, c); }
  }

  // ---------- runs that show the limits ----------

  lemma RunCons(s: State, step: Step, rest: seq<Step>)
    requires Enabled(s, step) && IsRun(Apply(s, step), rest)
    ensures IsRun(s, [step] + rest) && Exec(s, [step] + rest) == Exec(Apply(s, step), rest)
  {
    assert ([step] + rest)[1..] == rest;
  }

  /** The only path of o is a, and its reconciler stands here. */
  predicate At(s: State, o: string, a: string, pc: PC) {
    o in s.restores && s.restores[o].paths == [a] && s.restores[o].finalizer && PcOf(s, o) == pc
  }

  /** A new PodRestore for a is created and starts to pin. */
  lemma Begin(a: string, o: string) returns (s: State, e: State, steps: seq<Step>)
    ensures Initial(s) && IsRun(s, steps) && e == Exec(s, steps) && s.archives == {a}
    ensures At(e, o, a, PinLoop(0)) && !e.restores[o].deleting && e.archives == {a} && e.keep == map[]
    ensures e.collectors == [NoArchive] && e.mutex.Free? && Outside(UserRemoves(a)) !in steps
  {
    s := State({a}, map[], map[], map[], map[], [NoArchive], Free, {}, {});
    var s1 := Apply(s, Outside(CreateRestore(o, [a])));
    var s2 := Apply(s1, Pin(o, AddFinalizer));
    e := Apply(s2, Pin(o, StartPin));
    RunCons(s2, Pin(o, StartPin), []);
    RunCons(s1, Pin(o, AddFinalizer), [Pin(o, StartPin)] + []);
    RunCons(s, Outside(CreateRestore(o, [a])), [Pin(o, AddFinalizer)] + ([Pin(o, StartPin)] + []));
    steps := [Outside(CreateRestore(o, [a]))] + ([Pin(o, AddFinalizer)] + ([Pin(o, StartPin)] + []));
  }

  lemma {:induction false} RunConcat(s: State, first: seq<Step>, next: seq<Step>)
    requires IsRun(s, first) && IsRun(Exec(s, first), next)
    ensures IsRun(s, first + next) && Exec(s, first + next) == Exec(Exec(s, first), next)
    decreases |first|
  {
    if first == [] {
      assert first + next == next;
    } else {
      RunConcat(Apply(s, first[0]), first[1..], next);
      assert first + next == [first[0]] + (first[1..] + next);
      RunCons(s, first[0], first[1..] + next);
    }
  }

  /** A reconciler that has seen the archive of its only path completes the pin. */
  lemma PinFromWait(s: State, a: string, o: string) returns (steps: seq<Step>)
    requires At(s, o, a, PinWait(0)) && s.mutex.Free? && a !in s.keep
    ensures IsRun(s, steps)
    ensures var e := Exec(s, steps);
            && e.archives == s.archives && OwnersAt(e, a) == {o} && e.mutex.Free? && e.restores == s.restores
            && PcOf(e, o) == PinLoop(1)
  {
    var s1 := Apply(s, Pin(o, LockForPin));
    var s2 := Apply(s1, Pin(o, ReadForPin));
    assert PcOf(s2, o) == PinWrite(0, Managed([o]));
    var rest := PinFromWrite(s2, a, o);
    RunCons(s1, Pin(o, ReadForPin), rest);
    RunCons(s, Pin(o, LockForPin), [Pin(o, ReadForPin)] + rest);
    steps := [Pin(o, LockForPin)] + ([Pin(o, ReadForPin)] + rest);
  }

  lemma PinFromWrite(s: State, a: string, o: string) returns (steps: seq<Step>)
    requires At(s, o, a, PinWrite(0, Managed([o])))
    ensures IsRun(s, steps)
    ensures var e := Exec(s, steps);
            && e.archives == s.archives && OwnersAt(e, a) == {o} && e.mutex.Free? && e.restores == s.restores
            && PcOf(e, o) == PinLoop(1) && MarkerAt(e, a) == Some(Managed([o]))
    ensures Outside(UserRemoves(a)) !in steps
  {
    var s1 := Apply(s, Pin(o, WriteForPin));
    var s2 := Apply(s1, Pin(o, CommitPin));
    assert s2.keep[a] == Managed([o]);
    RunCons(s1, Pin(o, CommitPin), []);
    RunCons(s, Pin(o, WriteForPin), [Pin(o, CommitPin)] + []);
    steps := [Pin(o, WriteForPin)] + ([Pin(o, CommitPin)] + []);
  }

  lemma UnlinkWhileWaiting(s: State, a: string, o: string) returns (steps: seq<Step>)
    requires At(s, o, a, PinLoop(0)) && s.mutex.Free? && s.collectors == [NoArchive] && a in s.archives && a !in s.keep
    ensures IsRun(s, steps)
    ensures var e := Exec(s, steps);
            At(e, o, a, PinWait(0)) && e.mutex.Free? && a !in e.archives && a !in e.keep
  {
    var s1 := Apply(s, Pin(o, StatForPin));
    var s2 := Apply(s1, Collect(0, Choose(a)));
    var s3 := Apply(s2, Collect(0, LockForUnlink));
    var s4 := Apply(s3, Collect(0, Recheck));
    assert s4.collectors[0] == Unlinking(a, false);
    var r4 := [Collect(0, Unlink)] + [];
    RunCons(s4, Collect(0, Unlink), []);
    RunCons(s3, Collect(0, Recheck), r4);
    RunCons(s2, Collect(0, LockForUnlink), [Collect(0, Recheck)] + r4);
    RunCons(s1, Collect(0, Choose(a)), [Collect(0, LockForUnlink)] + ([Collect(0, Recheck)] + r4));
    var r1 := [Collect(0, Choose(a))] + ([Collect(0, LockForUnlink)] + ([Collect(0, Recheck)] + r4));
    RunCons(s, Pin(o, StatForPin), r1);
    steps := [Pin(o, StatForPin)] + r1;
  }

  /** A pin looks for the archive before it takes the mutex, so its success alone does not mean that
      the archive is still there: the collector may unlink it in between. */
  lemma PinMayOutliveArchive(a: string, o: string) returns (s: State, steps: seq<Step>)
    ensures Initial(s) && IsRun(s, steps) && a in s.archives
    ensures a !in Exec(s, steps).archives && OwnersAt(Exec(s, steps), a) == {o}
  {
    var e, begin;
    s, e, begin := Begin(a, o);
    var wait := UnlinkWhileWaiting(e, a, o);
    var pin := PinFromWait(Exec(e, wait), a, o);
    RunConcat(e, wait, pin);
    RunConcat(s, begin, wait + pin);
    steps := begin + (wait + pin);
  }

  lemma DeleteForsaken(s: State, a: string, o: string) returns (steps: seq<Step>)
    requires At(s, o, a, PinLoop(1)) && s.mutex.Free? && OwnersAt(s, a) == {o}
    ensures IsRun(s, steps) && o !in Exec(s, steps).restores && OwnersAt(Exec(s, steps), a) == {o}
  {
    var s1 := Apply(s, Pin(o, EndPin));
    var s2 := Apply(s1, Outside(RequestDelete(o)));
    var s3 := Apply(s2, Unpin(o, StartUnpin));
    assert At(s3, o, a, UnpinLoop(0)) && s3.restores[o].deleting;
    var rest := GiveUpAndGo(s3, a, o);
    RunCons(s2, Unpin(o, StartUnpin), rest);
    RunCons(s1, Outside(RequestDelete(o)), [Unpin(o, StartUnpin)] + rest);
    RunCons(s, Pin(o, EndPin), [Outside(RequestDelete(o))] + ([Unpin(o, StartUnpin)] + rest));
    steps := [Pin(o, EndPin)] + ([Outside(RequestDelete(o))] + ([Unpin(o, StartUnpin)] + rest));
  }

  lemma GiveUpAndGo(s: State, a: string, o: string) returns (steps: seq<Step>)
    requires At(s, o, a, UnpinLoop(0)) && s.restores[o].deleting && s.mutex.Free? && OwnersAt(s, a) == {o}
    ensures IsRun(s, steps) && o !in Exec(s, steps).restores && OwnersAt(Exec(s, steps), a) == {o}
  {
    var s1 := Apply(s, Unpin(o, LockForUnpin));
    var s2 := Apply(s1, Unpin(o, GiveUpUnpin));
    assert PcOf(s2, o) == UnpinLoop(1);
    var s3 := Apply(s2, Unpin(o, DropFinalizer));
    RunCons(s3, Outside(Vanish(o)), []);
    RunCons(s2, Unpin(o, DropFinalizer), [Outside(Vanish(o))] + []);
    RunCons(s1, Unpin(o, GiveUpUnpin), [Unpin(o, DropFinalizer)] + ([Outside(Vanish(o))] + []));
    var r1 := [Unpin(o, GiveUpUnpin)] + ([Unpin(o, DropFinalizer)] + ([Outside(Vanish(o))] + []));
    RunCons(s, Unpin(o, LockForUnpin), r1);
    steps := [Unpin(o, LockForUnpin)] + r1;
  }

  /** A failing marker operation of an unpin is only logged and the finalizer goes all the same, so the
      marker may name a PodRestore that no longer exists. */
  lemma GivenUpUnpinLeaks(a: string, o: string) returns (s: State, steps: seq<Step>)
    ensures Initial(s) && IsRun(s, steps)
    ensures o !in Exec(s, steps).restores && OwnersAt(Exec(s, steps), a) == {o}
  {
    var e, begin;
    s, e, begin := Begin(a, o);
    var e1 := Apply(e, Pin(o, StatForPin));
    var pin := PinFromWait(e1, a, o);
    RunCons(e, Pin(o, StatForPin), pin);
    var gone := DeleteForsaken(Exec(e1, pin), a, o);
    RunConcat(e, [Pin(o, StatForPin)] + pin, gone);
    RunConcat(s, begin, ([Pin(o, StatForPin)] + pin) + gone);
    steps := begin + (([Pin(o, StatForPin)] + pin) + gone);
  }

  lemma OverwriteFromRead(s: State, a: string, o: string, content: string) returns (steps: seq<Step>)
    requires At(s, o, a, PinRead(0)) && a !in s.keep
    ensures IsRun(s, steps) && Outside(UserWrites(a, content)) in steps && Outside(UserRemoves(a)) !in steps
    ensures MarkerAt(Exec(s, steps), a) == Some(Managed([o]))
  {
    var s1 := Apply(s, Pin(o, ReadForPin));
    assert PcOf(s1, o) == PinWrite(0, Managed([o]));
    var s2 := Apply(s1, Outside(UserWrites(a, content)));
    var write := PinFromWrite(s2, a, o);
    RunCons(s1, Outside(UserWrites(a, content)), write);
    RunCons(s, Pin(o, ReadForPin), [Outside(UserWrites(a, content))] + write);
    steps := [Pin(o, ReadForPin)] + ([Outside(UserWrites(a, content))] + write);
    assert steps[1] == Outside(UserWrites(a, content));
  }

  /** A user who writes the marker between the operator's read and its rename loses it. */
  lemma TornMarkerIsLost(a: string, o: string, content: string) returns (s: State, steps: seq<Step>)
    ensures Initial(s) && IsRun(s, steps) && Outside(UserWrites(a, content)) in steps
    ensures Outside(UserRemoves(a)) !in steps && MarkerAt(Exec(s, steps), a) == Some(Managed([o]))
  {
    var e, begin;
    s, e, begin := Begin(a, o);
    var e1 := Apply(e, Pin(o, StatForPin));
    var e2 := Apply(e1, Pin(o, LockForPin));
    var rest := OverwriteFromRead(e2, a, o, content);
    RunCons(e1, Pin(o, LockForPin), rest);
    RunCons(e, Pin(o, StatForPin), [Pin(o, LockForPin)] + rest);
    RunConcat(s, begin, [Pin(o, StatForPin)] + ([Pin(o, LockForPin)] + rest));
    steps := begin + ([Pin(o, StatForPin)] + ([Pin(o, LockForPin)] + rest));
  }
}
