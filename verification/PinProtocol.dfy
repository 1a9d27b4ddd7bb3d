/** Any number of PodRestores and collector passes interleaved on one checkpoint directory, at the
    grain of the shared mutex and of every file operation inside it, with failing file operations,
    users who touch markers, and crashes of the operator. */
module PinProtocol {
  import opened Common
  import opened PinMarkers

  /** A PodRestore object in the API server; its checkpoint paths are immutable. */
  datatype Restore = Restore(paths: seq<string>, finalizer: bool, deleting: bool)

  /** Where the reconciler of one PodRestore stands; i indexes its checkpoint paths. */
  datatype PC =
    | Idle
    | PinLoop(i: nat)                 // about to stat path i
    | PinWait(i: nat)                 // the archive was there, waiting for the mutex
    | PinRead(i: nat)                 // owns the mutex
    | PinWrite(i: nat, m: Marker)     // owns the mutex, about to write the temporary file
    | PinRename(i: nat, m: Marker)    // owns the mutex, about to rename it onto the marker
    | UnpinLoop(i: nat)
    | UnpinRead(i: nat)
    | UnpinWrite(i: nat, m: Marker)
    | UnpinRename(i: nat, m: Marker)
    | UnpinRemove(i: nat)             // owns the mutex, about to remove the marker of the last owner

  /** Where one retention pass stands with the archive it is about to delete. */
  datatype GC =
    | NoArchive
    | Chosen(p: string)                  // selected without the mutex
    | Rechecking(p: string)              // owns the mutex
    | Unlinking(p: string, blind: bool)  // owns the mutex; found no marker, or could not look for it

  datatype Holder = Free | ByRestore(o: string) | ByCollector(c: nat)

  /** Two fields are history only. forsaken: owners still on a marker whose unpin was given up. torn:
      archives whose marker a user touched while the operator was inside the mutex for them. */
  datatype State = State(archives: set<string>, keep: map<string, Marker>, temp: map<string, Marker>,
                         restores: map<string, Restore>, pcs: map<string, PC>, collectors: seq<GC>, mutex: Holder,
                         forsaken: set<(string, string)>, torn: set<string>)

  /** Users, the API server, the kubelet and whoever else removes archives. What a user writes does not
      parse as managed. */
  datatype OutsideAction =
    | CreateRestore(name: string, paths: seq<string>) | RequestDelete(name: string) | Vanish(name: string)
    | KubeletWrites(p: string) | ArchiveLost(p: string) | UserWrites(p: string, content: string) | UserRemoves(p: string)

  /** The reconciler of a PodRestore that stays. GiveUpPin is any failing operation inside the mutex. */
  datatype PinAction =
    | AddFinalizer | StartPin | StatForPin | StatFails | EndPin
    | LockForPin | ReadForPin | WriteForPin | CommitPin | GiveUpPin

  /** The reconciler of a PodRestore that is being deleted. */
  datatype UnpinAction =
    | StartUnpin | LockForUnpin | ReadForUnpin | WriteForUnpin | CommitUnpin | RemoveMarker | GiveUpUnpin
    | DropFinalizer | DropFails

  /** A collector pass. A marker that cannot be stat'ed counts as absent. */
  datatype CollectAction = Choose(p: string) | LockForUnlink | Recheck | RecheckFails | Unlink | UnlinkFails

  datatype Step =
    | Outside(e: OutsideAction)
    | Pin(o: string, a: PinAction)
    | Unpin(o: string, b: UnpinAction)
    | Collect(c: nat, g: CollectAction)
    | Crash // the operator process dies and starts again

  function PcOf(s: State, o: string): PC { if o in s.pcs then s.pcs[o] else Idle }

  function MarkerAt(s: State, p: string): Option<Marker> { if p in s.keep then Some(s.keep[p]) else None }

  /** The owners a managed marker lists. */
  function OwnersAt(s: State, p: string): set<string> {
    if p in s.keep && s.keep[p].Managed? then Elements(s.keep[p].owners) else {}
  }

  predicate InPinSection(pc: PC) { pc.PinRead? || pc.PinWrite? || pc.PinRename? }

  predicate InUnpinSection(pc: PC) { pc.UnpinRead? || pc.UnpinWrite? || pc.UnpinRename? || pc.UnpinRemove? }

  predicate InSection(pc: PC) { InPinSection(pc) || InUnpinSection(pc) }

  predicate GcInSection(g: GC) { g.Rechecking? || g.Unlinking? }

  /** Path i of the restore, while its reconciler is in a loop. */
  predicate HasPath(s: State, o: string, i: nat) { o in s.restores && i < |s.restores[o].paths| }

  /** Some thread is inside the mutex on behalf of this archive. */
  predicate SectionOn(s: State, p: string) {
    || (exists o :: o in s.pcs && InSection(s.pcs[o]) && HasPath(s, o, s.pcs[o].i) && s.restores[o].paths[s.pcs[o].i] == p)
    || (exists c :: 0 <= c < |s.collectors| && GcInSection(s.collectors[c]) && s.collectors[c].p == p)
  }

  // ---------- when a step is possible ----------

  predicate OutsideEnabled(s: State, e: OutsideAction) {
    match e
    case CreateRestore(o, _) => o !in s.restores
    case RequestDelete(o) => o in s.restores
    case Vanish(o) => o in s.restores && s.restores[o].deleting && !s.restores[o].finalizer
    case KubeletWrites(_) => true
    case ArchiveLost(_) => true
    case UserWrites(_, _) => true
    case UserRemoves(p) => p in s.keep
  }

  predicate PinEnabled(s: State, o: string, a: PinAction) {
    var pc := PcOf(s, o);
    match a
    case AddFinalizer => pc.Idle? && o in s.restores && !s.restores[o].finalizer && !s.restores[o].deleting
    case StartPin => pc.Idle? && o in s.restores && s.restores[o].finalizer && !s.restores[o].deleting
    case StatForPin => pc.PinLoop? && HasPath(s, o, pc.i)
    case StatFails => pc.PinLoop? && HasPath(s, o, pc.i)
    case EndPin => pc.PinLoop? && !HasPath(s, o, pc.i)
    case LockForPin => pc.PinWait? && s.mutex.Free?
    case ReadForPin => pc.PinRead? && HasPath(s, o, pc.i)
    case WriteForPin => pc.PinWrite? && HasPath(s, o, pc.i)
    case CommitPin => pc.PinRename? && HasPath(s, o, pc.i)
    case GiveUpPin => InPinSection(pc) && HasPath(s, o, pc.i)
  }

  predicate UnpinEnabled(s: State, o: string, b: UnpinAction) {
    var pc := PcOf(s, o);
    match b
    case StartUnpin => pc.Idle? && o in s.restores && s.restores[o].finalizer && s.restores[o].deleting
    case LockForUnpin => pc.UnpinLoop? && HasPath(s, o, pc.i) && s.mutex.Free?
    case ReadForUnpin => pc.UnpinRead? && HasPath(s, o, pc.i)
    case WriteForUnpin => pc.UnpinWrite? && HasPath(s, o, pc.i)
    case CommitUnpin => pc.UnpinRename? && HasPath(s, o, pc.i)
    case RemoveMarker => pc.UnpinRemove? && HasPath(s, o, pc.i)
    case GiveUpUnpin => InUnpinSection(pc) && HasPath(s, o, pc.i)
    case DropFinalizer => pc.UnpinLoop? && o in s.restores && !HasPath(s, o, pc.i)
    case DropFails => pc.UnpinLoop? && o in s.restores && !HasPath(s, o, pc.i)
  }

  predicate CollectEnabled(s: State, c: nat, g: CollectAction) {
    c < |s.collectors| &&
    match g
    case Choose(p) => s.collectors[c].NoArchive? && p in s.archives
    case LockForUnlink => s.collectors[c].Chosen? && s.mutex.Free?
    case Recheck => s.collectors[c].Rechecking?
    case RecheckFails => s.collectors[c].Rechecking?
    case Unlink => s.collectors[c].Unlinking?
    case UnlinkFails => s.collectors[c].Unlinking?
  }

  predicate Enabled(s: State, step: Step) {
    match step
    case Outside(e) => OutsideEnabled(s, e)
    case Pin(o, a) => PinEnabled(s, o, a)
    case Unpin(o, b) => UnpinEnabled(s, o, b)
    case Collect(c, g) => CollectEnabled(s, c, g)
    case Crash => true
  }

  // ---------- what a step does ----------

  function Goto(s: State, o: string, pc: PC): State { s.(pcs := s.pcs[o := pc]) }

  function GcGoto(s: State, c: nat, g: GC): State
    requires c < |s.collectors|
  {
    s.(collectors := s.collectors[c := g])
  }

  function PathOf(s: State, o: string): string
    requires !PcOf(s, o).Idle? && HasPath(s, o, PcOf(s, o).i)
  {
    s.restores[o].paths[PcOf(s, o).i]
  }

  /** A user takes all owners off the marker of p. */
  function Relieved(s: State, p: string): set<(string, string)> { set x | x in s.forsaken && x.1 != p }

  function Torn(s: State, p: string): set<string> { if SectionOn(s, p) then s.torn + {p} else s.torn }

  function OutsideApply(s: State, e: OutsideAction): State
    requires OutsideEnabled(s, e)
  {
    match e
    case CreateRestore(o, paths) => s.(restores := s.restores[o := Restore(paths, false, false)])
    case RequestDelete(o) =>
      if s.restores[o].finalizer then s.(restores := s.restores[o := s.restores[o].(deleting := true)])
      else s.(restores := s.restores - {o})
    case Vanish(o) => s.(restores := s.restores - {o})
    case KubeletWrites(p) => s.(archives := s.archives + {p})
    case ArchiveLost(p) => s.(archives := s.archives - {p})
    case UserWrites(p, content) =>
      s.(keep := s.keep[p := Unmanaged(content)], forsaken := Relieved(s, p), torn := Torn(s, p))
    case UserRemoves(p) => s.(keep := s.keep - {p}, forsaken := Relieved(s, p), torn := Torn(s, p))
  }

  /** Leaves the critical section for the next path with this marker in place, None for none. */
  function Commit(s: State, o: string, pc: PC, m: Option<Marker>): State
    requires !PcOf(s, o).Idle? && HasPath(s, o, PcOf(s, o).i)
  {
    var p := PathOf(s, o);
    Goto(s, o, pc).(keep := if m.Some? then s.keep[p := m.value] else s.keep - {p},
                    temp := s.temp - {p}, mutex := Free, forsaken := s.forsaken - {(o, p)})
  }

  function PinApply(s: State, o: string, a: PinAction): State
    requires PinEnabled(s, o, a)
  {
    var pc := PcOf(s, o);
    match a
    case AddFinalizer => s.(restores := s.restores[o := s.restores[o].(finalizer := true)])
    case StartPin => Goto(s, o, PinLoop(0))
    case StatForPin => Goto(s, o, if PathOf(s, o) in s.archives then PinWait(pc.i) else PinLoop(pc.i + 1))
    case StatFails => Goto(s, o, PinLoop(pc.i + 1))
    case EndPin => Goto(s, o, Idle)
    case LockForPin => Goto(s, o, PinRead(pc.i)).(mutex := ByRestore(o))
    case ReadForPin =>
      var before := MarkerAt(s, PathOf(s, o));
      var after := PinMarker(before, o);
      if after == before || after.None? then Goto(s, o, PinLoop(pc.i + 1)).(mutex := Free)
      else Goto(s, o, PinWrite(pc.i, after.value))
    case WriteForPin => Goto(s, o, PinRename(pc.i, pc.m)).(temp := s.temp[PathOf(s, o) := pc.m])
    case CommitPin => Commit(s, o, PinLoop(pc.i + 1), Some(pc.m))
    case GiveUpPin => Goto(s, o, PinLoop(pc.i + 1)).(mutex := Free)
  }

  function UnpinApply(s: State, o: string, b: UnpinAction): State
    requires UnpinEnabled(s, o, b)
  {
    var pc := PcOf(s, o);
    match b
    case StartUnpin => Goto(s, o, UnpinLoop(0))
    case LockForUnpin => Goto(s, o, UnpinRead(pc.i)).(mutex := ByRestore(o))
    case ReadForUnpin =>
      var before := MarkerAt(s, PathOf(s, o));
      var after := UnpinMarker(before, o);
      if after == before then Goto(s, o, UnpinLoop(pc.i + 1)).(mutex := Free)
      else if after.None? then Goto(s, o, UnpinRemove(pc.i))
      else Goto(s, o, UnpinWrite(pc.i, after.value))
    case WriteForUnpin => Goto(s, o, UnpinRename(pc.i, pc.m)).(temp := s.temp[PathOf(s, o) := pc.m])
    case CommitUnpin => Commit(s, o, UnpinLoop(pc.i + 1), Some(pc.m))
    case RemoveMarker => Commit(s, o, UnpinLoop(pc.i + 1), None)
    case GiveUpUnpin =>
      Goto(s, o, UnpinLoop(pc.i + 1)).(
        mutex := Free, forsaken := if o in OwnersAt(s, PathOf(s, o)) then s.forsaken + {(o, PathOf(s, o))} else s.forsaken)
    case DropFinalizer => Goto(s, o, Idle).(restores := s.restores[o := s.restores[o].(finalizer := false)])
    case DropFails => Goto(s, o, Idle)
  }

  function CollectApply(s: State, c: nat, g: CollectAction): State
    requires CollectEnabled(s, c, g)
  {
    match g
    case Choose(p) => GcGoto(s, c, Chosen(p))
    case LockForUnlink => GcGoto(s, c, Rechecking(s.collectors[c].p)).(mutex := ByCollector(c))
    case Recheck =>
      var p := s.collectors[c].p;
      if p in s.keep then GcGoto(s, c, NoArchive).(mutex := Free) else GcGoto(s, c, Unlinking(p, false))
    case RecheckFails => GcGoto(s, c, Unlinking(s.collectors[c].p, true))
    case Unlink => GcGoto(s, c, NoArchive).(archives := s.archives - {s.collectors[c].p}, mutex := Free)
    case UnlinkFails => GcGoto(s, c, NoArchive).(mutex := Free)
  }

  function Restart(s: State): State {
    s.(pcs := map[], collectors := seq(|s.collectors|, _ => NoArchive), mutex := Free)
  }

  function Apply(s: State, step: Step): State
    requires Enabled(s, step)
  {
    match step
    case Outside(e) => OutsideApply(s, e)
    case Pin(o, a) => PinApply(s, o, a)
    case Unpin(o, b) => UnpinApply(s, o, b)
    case Collect(c, g) => CollectApply(s, c, g)
    case Crash => Restart(s)
  }

  predicate IsRun(s: State, steps: seq<Step>)
    decreases |steps|
  {
    steps == [] || (Enabled(s, steps[0]) && IsRun(Apply(s, steps[0]), steps[1..]))
  }

  function Exec(s: State, steps: seq<Step>): State
    requires IsRun(s, steps)
    decreases |steps|
  {
    if steps == [] then s else Exec(Apply(s, steps[0]), steps[1..])
  }

  /** No operator activity yet; there may be archives, user markers and left-over temporary files. */
  predicate Initial(s: State) {
    && s.pcs == map[] && s.restores == map[] && s.mutex.Free? && s.forsaken == {} && s.torn == {}
    && (forall c :: 0 <= c < |s.collectors| ==> s.collectors[c].NoArchive?)
    && (forall p :: p in s.keep ==> s.keep[p].Unmanaged?)
  }

  // ---------- the invariant ----------

  predicate MutexExact(s: State) {
    && (forall o :: o in s.pcs && InSection(s.pcs[o]) ==> s.mutex == ByRestore(o))
    && (forall c :: 0 <= c < |s.collectors| && GcInSection(s.collectors[c]) ==> s.mutex == ByCollector(c))
    && (s.mutex.ByRestore? ==> s.mutex.o in s.pcs && InSection(s.pcs[s.mutex.o]))
    && (s.mutex.ByCollector? ==> s.mutex.c < |s.collectors| && GcInSection(s.collectors[s.mutex.c]))
  }

  /** A collector that looked for a marker and is about to unlink found none, and none has appeared. */
  predicate UnlinkSafe(s: State) {
    forall c :: 0 <= c < |s.collectors| && s.collectors[c].Unlinking? && !s.collectors[c].blind ==>
      s.collectors[c].p !in s.keep || s.collectors[c].p in s.torn
  }

  predicate Unpinning(pc: PC) { pc.UnpinLoop? || InUnpinSection(pc) }

  /** A busy reconciler works for an object that carries the finalizer, on one of its paths. */
  predicate BusyHasFinalizer(s: State) {
    forall o :: o in s.pcs && !s.pcs[o].Idle? ==>
      && o in s.restores && s.restores[o].finalizer
      && (Unpinning(s.pcs[o]) ==> s.restores[o].deleting)
      && (!s.pcs[o].PinLoop? && !s.pcs[o].UnpinLoop? ==> s.pcs[o].i < |s.restores[o].paths|)
  }

  /** A marker about to be written is computed from the marker still in place. */
  predicate WritesCurrent(s: State) {
    forall o :: o in s.pcs && InSection(s.pcs[o]) && HasPath(s, o, s.pcs[o].i) &&
                s.restores[o].paths[s.pcs[o].i] !in s.torn ==>
      var p, pc := s.restores[o].paths[s.pcs[o].i], s.pcs[o];
      && (pc.PinWrite? || pc.PinRename? ==> Some(pc.m) == PinMarker(MarkerAt(s, p), o) && Some(pc.m) != MarkerAt(s, p))
      && (pc.UnpinWrite? || pc.UnpinRename? ==>
            Some(pc.m) == UnpinMarker(MarkerAt(s, p), o) && Some(pc.m) != MarkerAt(s, p))
      && (pc.UnpinRemove? ==> UnpinMarker(MarkerAt(s, p), o).None? && MarkerAt(s, p).Some?)
  }

  /** Managed markers list at least one owner, strictly sorted. */
  predicate MarkersSound(s: State) {
    forall p :: p in s.keep && p !in s.torn && s.keep[p].Managed? ==> Represents(Some(s.keep[p]), OwnersAt(s, p))
  }

  /** The owner's object carries the finalizer, names the path, and has not yet got past unpinning it. */
  predicate Entitled(s: State, o: string, p: string) {
    && o in s.restores && s.restores[o].finalizer && p in s.restores[o].paths
    && (o in s.pcs && Unpinning(s.pcs[o]) ==>
          forall k :: 0 <= k < s.pcs[o].i && k < |s.restores[o].paths| ==> s.restores[o].paths[k] != p)
  }

  ghost predicate OwnersAccounted(s: State) {
    forall p, o :: p !in s.torn && o in OwnersAt(s, p) ==> Entitled(s, o, p) || (o, p) in s.forsaken
  }

  predicate ForsakenListed(s: State) {
    forall x :: x in s.forsaken && x.1 !in s.torn ==> x.0 in OwnersAt(s, x.1)
  }

  /** What the threads may rely on. */
  predicate Threads(s: State) { MutexExact(s) && UnlinkSafe(s) && BusyHasFinalizer(s) && WritesCurrent(s) }

  /** What the markers say. */
  ghost predicate Books(s: State) { MarkersSound(s) && OwnersAccounted(s) && ForsakenListed(s) }

  ghost predicate Inv(s: State) { Threads(s) && Books(s) }

  // ---------- preservation ----------

  lemma InitialInv(s: State)
    requires Initial(s)
    ensures Inv(s)
  {}

  lemma CreateKeepsInv(s: State, e: OutsideAction)
    requires Inv(s) && OutsideEnabled(s, e) && e.CreateRestore?
    ensures Inv(OutsideApply(s, e))
  {}

  /** Books after a change to one object that leaves the entitlements of everybody else alone. */
  lemma ObjectKeepsBooks(s: State, s': State, o: string)
    requires Books(s) && s'.keep == s.keep && s'.pcs == s.pcs && s'.forsaken == s.forsaken && s'.torn == s.torn
    requires forall x :: x != o && x in s.restores ==> x in s'.restores && s'.restores[x] == s.restores[x]
    requires forall p :: Entitled(s, o, p) ==> Entitled(s', o, p)
    ensures Books(s')
  {
    forall p, x | p !in s'.torn && x in OwnersAt(s', p) ensures Entitled(s', x, p) || (x, p) in s'.forsaken {
      assert x in OwnersAt(s, p);
    }
  }

  lemma RequestKeepsThreads(s: State, e: OutsideAction)
    requires Threads(s) && OutsideEnabled(s, e) && (e.RequestDelete? || e.Vanish?)
    ensures Threads(OutsideApply(s, e))
  {}

  lemma RequestKeepsInv(s: State, e: OutsideAction)
    requires Inv(s) && OutsideEnabled(s, e) && (e.RequestDelete? || e.Vanish?)
    ensures Inv(OutsideApply(s, e))
  {
    RequestKeepsThreads(s, e);
    ObjectKeepsBooks(s, OutsideApply(s, e), e.name);
  }

  lemma ArchiveKeepsInv(s: State, e: OutsideAction)
    requires Inv(s) && OutsideEnabled(s, e) && (e.KubeletWrites? || e.ArchiveLost?)
    ensures Inv(OutsideApply(s, e))
  {
    SameBooks(s, OutsideApply(s, e));
  }

  lemma UserKeepsThreads(s: State, e: OutsideAction)
    requires Threads(s) && OutsideEnabled(s, e) && (e.UserWrites? || e.UserRemoves?)
    ensures Threads(OutsideApply(s, e))
  {
    var s' := OutsideApply(s, e);
    assert forall q :: q != e.p ==> MarkerAt(s', q) == MarkerAt(s, q);
    assert s'.pcs == s.pcs && s'.restores == s.restores && s'.collectors == s.collectors && s'.mutex == s.mutex;
  }

  lemma UserKeepsBooks(s: State, e: OutsideAction)
    requires Books(s) && OutsideEnabled(s, e) && (e.UserWrites? || e.UserRemoves?)
    ensures Books(OutsideApply(s, e))
  {
    var s' := OutsideApply(s, e);
    assert forall q :: q != e.p ==> MarkerAt(s', q) == MarkerAt(s, q);
    assert OwnersAt(s', e.p) == {};
    forall p, x | p !in s'.torn && x in OwnersAt(s', p) ensures Entitled(s', x, p) || (x, p) in s'.forsaken {
      assert p != e.p && x in OwnersAt(s, p);
    }
  }

  lemma UserKeepsInv(s: State, e: OutsideAction)
    requires Inv(s) && OutsideEnabled(s, e) && (e.UserWrites? || e.UserRemoves?)
    ensures Inv(OutsideApply(s, e))
  {
    UserKeepsThreads(s, e);
    UserKeepsBooks(s, e);
  }

  lemma OutsideKeepsInv(s: State, e: OutsideAction)
    requires Inv(s) && OutsideEnabled(s, e)
    ensures Inv(OutsideApply(s, e))
  {
    match e
    case CreateRestore(_, _) => CreateKeepsInv(s, e);
    case RequestDelete(_) => RequestKeepsInv(s, e);
    case Vanish(_) => RequestKeepsInv(s, e);
    case KubeletWrites(_) => ArchiveKeepsInv(s, e);
    case ArchiveLost(_) => ArchiveKeepsInv(s, e);
    case UserWrites(_, _) => UserKeepsInv(s, e);
    case UserRemoves(_) => UserKeepsInv(s, e);
  }

  /** A reconciler that moves without passing an unpinned path leaves the books in order. */
  lemma MoveKeepsBooks(s: State, s': State, o: string, pc: PC)
    requires Books(s) && s'.keep == s.keep && s'.restores == s.restores && s'.forsaken == s.forsaken && s'.torn == s.torn
    requires s'.pcs == s.pcs[o := pc]
    requires Unpinning(pc) ==> pc.i == 0 || (Unpinning(PcOf(s, o)) && pc.i == PcOf(s, o).i)
    ensures Books(s')
  {
    forall p, x | p !in s'.torn && x in OwnersAt(s', p) ensures Entitled(s', x, p) || (x, p) in s'.forsaken {
      assert x in OwnersAt(s, p);
    }
  }

  lemma LoopKeepsThreads(s: State, o: string, pc: PC)
    requires Threads(s) && !InSection(PcOf(s, o)) && !InSection(pc) && !Unpinning(pc)
    requires !pc.Idle? ==> o in s.restores && s.restores[o].finalizer
    requires pc.PinWait? ==> HasPath(s, o, pc.i)
    ensures Threads(Goto(s, o, pc))
  {}

  /** Steps of a reconciler that touch neither mutex nor markers. */
  lemma LoopKeepsInv(s: State, o: string, a: PinAction)
    requires Inv(s) && PinEnabled(s, o, a) && (a.StartPin? || a.StatForPin? || a.StatFails? || a.EndPin?)
    ensures Inv(PinApply(s, o, a))
  {
    var s' := PinApply(s, o, a);
    LoopKeepsThreads(s, o, s'.pcs[o]);
    MoveKeepsBooks(s, s', o, s'.pcs[o]);
  }

  lemma AddFinalizerKeepsInv(s: State, o: string)
    requires Inv(s) && PinEnabled(s, o, AddFinalizer)
    ensures Inv(PinApply(s, o, AddFinalizer))
  {}

  lemma LockForPinKeepsInv(s: State, o: string)
    requires Inv(s) && PinEnabled(s, o, LockForPin)
    ensures Inv(PinApply(s, o, LockForPin))
  {}

  lemma LeavePinKeepsInv(s: State, o: string)
    requires Inv(s) && InPinSection(PcOf(s, o)) && HasPath(s, o, PcOf(s, o).i)
    ensures Inv(Goto(s, o, PinLoop(PcOf(s, o).i + 1)).(mutex := Free))
  {
    var s' := Goto(s, o, PinLoop(PcOf(s, o).i + 1)).(mutex := Free);
    assert Threads(s');
    MoveKeepsBooks(s, s', o, PinLoop(PcOf(s, o).i + 1));
  }

  lemma ReadForPinKeepsInv(s: State, o: string)
    requires Inv(s) && PinEnabled(s, o, ReadForPin)
    ensures Inv(PinApply(s, o, ReadForPin))
  {
    if PinMarker(MarkerAt(s, PathOf(s, o)), o) == MarkerAt(s, PathOf(s, o)) {
      LeavePinKeepsInv(s, o);
    } else {
      ReadForPinKeepsThreads(s, o);
      var m := PinMarker(MarkerAt(s, PathOf(s, o)), o).value;
      MoveKeepsBooks(s, Goto(s, o, PinWrite(PcOf(s, o).i, m)), o, PinWrite(PcOf(s, o).i, m));
    }
  }

  lemma ReadForPinKeepsThreads(s: State, o: string)
    requires Threads(s) && PinEnabled(s, o, ReadForPin)
    requires PinMarker(MarkerAt(s, PathOf(s, o)), o) != MarkerAt(s, PathOf(s, o))
    ensures Threads(PinApply(s, o, ReadForPin))
  {}

  lemma WriteForPinKeepsInv(s: State, o: string)
    requires Inv(s) && PinEnabled(s, o, WriteForPin)
    ensures Inv(PinApply(s, o, WriteForPin))
  {}

  lemma CommitPinOwners(s: State, o: string)
    requires Inv(s) && PinEnabled(s, o, CommitPin) && PathOf(s, o) !in s.torn
    ensures var s', p := PinApply(s, o, CommitPin), PathOf(s, o);
            && p in s'.keep && Represents(Some(s'.keep[p]), OwnersAt(s, p) + {o})
            && OwnersAt(s', p) == OwnersAt(s, p) + {o}
            && forall q :: q != p ==> MarkerAt(s', q) == MarkerAt(s, q)
  {
    PinRefines(MarkerAt(s, PathOf(s, o)), OwnersAt(s, PathOf(s, o)), o);
  }

  /** The commit of a pin ends the critical section. */
  lemma CommitPinMoves(s: State, o: string)
    requires Inv(s) && PinEnabled(s, o, CommitPin)
    ensures var s' := PinApply(s, o, CommitPin); MutexExact(s') && UnlinkSafe(s') && BusyHasFinalizer(s') && WritesCurrent(s')
  {
    var s' := PinApply(s, o, CommitPin);
    assert forall x :: x in s'.pcs ==> !InSection(s'.pcs[x]);
  }

  lemma CommitPinLists(s: State, o: string, q: string)
    requires Inv(s) && PinEnabled(s, o, CommitPin) && q !in s.torn
    ensures var s' := PinApply(s, o, CommitPin);
            && OwnersAt(s', q) == (if q == PathOf(s, o) then OwnersAt(s, q) + {o} else OwnersAt(s, q))
            && (q in s'.keep && s'.keep[q].Managed? ==> Represents(Some(s'.keep[q]), OwnersAt(s', q)))
  {
    if q == PathOf(s, o) { CommitPinOwners(s, o); }
    assert q != PathOf(s, o) ==> MarkerAt(PinApply(s, o, CommitPin), q) == MarkerAt(s, q);
  }

  lemma CommitPinKeepsBooks(s: State, o: string)
    requires Inv(s) && PinEnabled(s, o, CommitPin)
    ensures Books(PinApply(s, o, CommitPin))
  {
    var s' := PinApply(s, o, CommitPin);
    forall q | q in s'.keep && q !in s'.torn && s'.keep[q].Managed? ensures Represents(Some(s'.keep[q]), OwnersAt(s', q)) {
      CommitPinLists(s, o, q);
    }
    forall q, x | q !in s'.torn && x in OwnersAt(s', q) ensures Entitled(s', x, q) || (x, q) in s'.forsaken {
      CommitPinLists(s, o, q);
    }
    forall x | x in s'.forsaken && x.1 !in s'.torn ensures x.0 in OwnersAt(s', x.1) { CommitPinLists(s, o, x.1); }
  }

  lemma CommitPinKeepsInv(s: State, o: string)
    requires Inv(s) && PinEnabled(s, o, CommitPin)
    ensures Inv(PinApply(s, o, CommitPin))
  {
    CommitPinMoves(s, o);
    CommitPinKeepsBooks(s, o);
  }

  lemma PinKeepsInv(s: State, o: string, a: PinAction)
    requires Inv(s) && PinEnabled(s, o, a)
    ensures Inv(PinApply(s, o, a))
  {
    match a
    case AddFinalizer => AddFinalizerKeepsInv(s, o);
    case StartPin => LoopKeepsInv(s, o, a);
    case StatForPin => LoopKeepsInv(s, o, a);
    case StatFails => LoopKeepsInv(s, o, a);
    case EndPin => LoopKeepsInv(s, o, a);
    case LockForPin => LockForPinKeepsInv(s, o);
    case ReadForPin => ReadForPinKeepsInv(s, o);
    case WriteForPin => WriteForPinKeepsInv(s, o);
    case CommitPin => CommitPinKeepsInv(s, o);
    case GiveUpPin => LeavePinKeepsInv(s, o);
  }

  lemma StartUnpinKeepsThreads(s: State, o: string)
    requires Threads(s) && UnpinEnabled(s, o, StartUnpin)
    ensures Threads(UnpinApply(s, o, StartUnpin))
  {}

  lemma StartUnpinKeepsInv(s: State, o: string)
    requires Inv(s) && UnpinEnabled(s, o, StartUnpin)
    ensures Inv(UnpinApply(s, o, StartUnpin))
  {
    StartUnpinKeepsThreads(s, o);
    MoveKeepsBooks(s, UnpinApply(s, o, StartUnpin), o, UnpinLoop(0));
  }

  lemma LockForUnpinKeepsInv(s: State, o: string)
    requires Inv(s) && UnpinEnabled(s, o, LockForUnpin)
    ensures Inv(UnpinApply(s, o, LockForUnpin))
  {}

  lemma LeaveUnpinKeepsThreads(s: State, o: string, forsaken: set<(string, string)>)
    requires Threads(s) && InUnpinSection(PcOf(s, o)) && HasPath(s, o, PcOf(s, o).i)
    ensures Threads(Goto(s, o, UnpinLoop(PcOf(s, o).i + 1)).(mutex := Free, forsaken := forsaken))
  {
    var s' := Goto(s, o, UnpinLoop(PcOf(s, o).i + 1)).(mutex := Free, forsaken := forsaken);
    assert forall x :: x in s'.pcs ==> !InSection(s'.pcs[x]);
  }

  /** Leaving the section without a change is safe once the owner is off the marker or forsaken. */
  lemma LeaveUnpinKeepsInv(s: State, o: string, forsaken: set<(string, string)>)
    requires Inv(s) && InUnpinSection(PcOf(s, o)) && HasPath(s, o, PcOf(s, o).i)
    requires forsaken == s.forsaken || forsaken == s.forsaken + {(o, PathOf(s, o))}
    requires PathOf(s, o) !in s.torn ==> (o in OwnersAt(s, PathOf(s, o)) <==> (o, PathOf(s, o)) in forsaken)
    ensures Inv(Goto(s, o, UnpinLoop(PcOf(s, o).i + 1)).(mutex := Free, forsaken := forsaken))
  {
    LeaveUnpinKeepsThreads(s, o, forsaken);
    var s' := Goto(s, o, UnpinLoop(PcOf(s, o).i + 1)).(mutex := Free, forsaken := forsaken);
    forall p, x | p !in s'.torn && x in OwnersAt(s', p) ensures Entitled(s', x, p) || (x, p) in s'.forsaken {
      assert x in OwnersAt(s, p);
      if (x, p) !in forsaken { LeaveUnpinEntitled(s, o, s', x, p); }
    }
  }

  lemma LeaveUnpinEntitled(s: State, o: string, s': State, x: string, p: string)
    requires InUnpinSection(PcOf(s, o)) && HasPath(s, o, PcOf(s, o).i) && Entitled(s, x, p)
    requires s'.restores == s.restores && s'.pcs == s.pcs[o := UnpinLoop(PcOf(s, o).i + 1)]
    requires x != o || p != PathOf(s, o)
    ensures Entitled(s', x, p)
  {}

  /** An unpin that changes nothing is one by somebody the marker does not list. */
  lemma IdleUnpin(s: State, p: string, o: string)
    requires UnpinMarker(MarkerAt(s, p), o) == MarkerAt(s, p)
    ensures o !in OwnersAt(s, p)
  {
    var m := MarkerAt(s, p);
    if m.Some? && m.value.Managed? { WithoutMembers(m.value.owners, o); }
  }

  lemma ReadForUnpinKeepsInv(s: State, o: string)
    requires Inv(s) && UnpinEnabled(s, o, ReadForUnpin)
    ensures Inv(UnpinApply(s, o, ReadForUnpin))
  {
    if UnpinMarker(MarkerAt(s, PathOf(s, o)), o) == MarkerAt(s, PathOf(s, o)) {
      ReadIdleUnpinKeepsInv(s, o);
    } else {
      ReadForUnpinKeepsThreads(s, o);
      ReadForUnpinKeepsBooks(s, o);
    }
  }

  lemma ReadIdleUnpinKeepsInv(s: State, o: string)
    requires Inv(s) && UnpinEnabled(s, o, ReadForUnpin)
    requires UnpinMarker(MarkerAt(s, PathOf(s, o)), o) == MarkerAt(s, PathOf(s, o))
    ensures Inv(UnpinApply(s, o, ReadForUnpin))
  {
    IdleUnpin(s, PathOf(s, o), o);
    LeaveUnpinKeepsInv(s, o, s.forsaken);
  }

  lemma ReadForUnpinKeepsBooks(s: State, o: string)
    requires Books(s) && UnpinEnabled(s, o, ReadForUnpin)
    requires UnpinMarker(MarkerAt(s, PathOf(s, o)), o) != MarkerAt(s, PathOf(s, o))
    ensures Books(UnpinApply(s, o, ReadForUnpin))
  {
    var s' := UnpinApply(s, o, ReadForUnpin);
    MoveKeepsBooks(s, s', o, s'.pcs[o]);
  }

  lemma ReadForUnpinKeepsThreads(s: State, o: string)
    requires Threads(s) && UnpinEnabled(s, o, ReadForUnpin)
    requires UnpinMarker(MarkerAt(s, PathOf(s, o)), o) != MarkerAt(s, PathOf(s, o))
    ensures Threads(UnpinApply(s, o, ReadForUnpin))
  {
    var s' := UnpinApply(s, o, ReadForUnpin);
    assert s'.keep == s.keep && s'.restores == s.restores && s'.mutex == s.mutex;
  }

  lemma GiveUpUnpinKeepsInv(s: State, o: string)
    requires Inv(s) && UnpinEnabled(s, o, GiveUpUnpin)
    ensures Inv(UnpinApply(s, o, GiveUpUnpin))
  {
    var p := PathOf(s, o);
    LeaveUnpinKeepsInv(s, o, if o in OwnersAt(s, p) then s.forsaken + {(o, p)} else s.forsaken);
  }

  lemma WriteForUnpinKeepsInv(s: State, o: string)
    requires Inv(s) && UnpinEnabled(s, o, WriteForUnpin)
    ensures Inv(UnpinApply(s, o, WriteForUnpin))
  {}

  lemma DropFinalizerKeepsThreads(s: State, o: string)
    requires Threads(s) && UnpinEnabled(s, o, DropFinalizer)
    ensures Threads(UnpinApply(s, o, DropFinalizer))
  {}

  /** When the finalizer goes, every path has been unpinned or forsaken. */
  lemma DropFinalizerKeepsBooks(s: State, o: string)
    requires Books(s) && UnpinEnabled(s, o, DropFinalizer)
    ensures Books(UnpinApply(s, o, DropFinalizer))
  {
    var s' := UnpinApply(s, o, DropFinalizer);
    forall p, x | p !in s'.torn && x in OwnersAt(s', p) ensures Entitled(s', x, p) || (x, p) in s'.forsaken {
      assert x in OwnersAt(s, p);
    }
  }

  lemma DropFinalizerKeepsInv(s: State, o: string)
    requires Inv(s) && UnpinEnabled(s, o, DropFinalizer)
    ensures Inv(UnpinApply(s, o, DropFinalizer))
  {
    DropFinalizerKeepsThreads(s, o);
    DropFinalizerKeepsBooks(s, o);
  }

  /** The API write fails: the next pass unpins all over again. */
  lemma DropFailsKeepsInv(s: State, o: string)
    requires Inv(s) && UnpinEnabled(s, o, DropFails)
    ensures Inv(UnpinApply(s, o, DropFails))
  {
    LoopKeepsThreads(s, o, Idle);
    MoveKeepsBooks(s, Goto(s, o, Idle), o, Idle);
  }

  lemma CommitUnpinOwners(s: State, o: string, b: UnpinAction, q: string)
    requires Inv(s) && UnpinEnabled(s, o, b) && (b.CommitUnpin? || b.RemoveMarker?) && q !in s.torn
    ensures var s' := UnpinApply(s, o, b);
            && OwnersAt(s', q) == (if q == PathOf(s, o) then OwnersAt(s, q) - {o} else OwnersAt(s, q))
            && (q in s'.keep && s'.keep[q].Managed? ==> Represents(MarkerAt(s', q), OwnersAt(s', q)))
            && (q in s'.keep ==> q in s.keep)
  {
    var p := PathOf(s, o);
    if q == p { UnpinRefines(MarkerAt(s, p), OwnersAt(s, p), o); }
    assert q != p ==> MarkerAt(UnpinApply(s, o, b), q) == MarkerAt(s, q);
  }

  /** The commit of an unpin ends the critical section and moves on to the next path. */
  lemma CommitUnpinMoves(s: State, o: string, b: UnpinAction)
    requires Inv(s) && UnpinEnabled(s, o, b) && (b.CommitUnpin? || b.RemoveMarker?)
    ensures var s' := UnpinApply(s, o, b); MutexExact(s') && UnlinkSafe(s') && BusyHasFinalizer(s') && WritesCurrent(s')
  {
    var s' := UnpinApply(s, o, b);
    assert forall x :: x in s'.pcs ==> !InSection(s'.pcs[x]);
  }

  lemma CommitUnpinAccounts(s: State, o: string, b: UnpinAction)
    requires Inv(s) && UnpinEnabled(s, o, b) && (b.CommitUnpin? || b.RemoveMarker?)
    ensures Books(UnpinApply(s, o, b))
  {
    var s' := UnpinApply(s, o, b);
    forall q | q in s'.keep && q !in s'.torn && s'.keep[q].Managed? ensures Represents(Some(s'.keep[q]), OwnersAt(s', q)) {
      CommitUnpinOwners(s, o, b, q);
    }
    forall q, x | q !in s'.torn && x in OwnersAt(s', q) ensures Entitled(s', x, q) || (x, q) in s'.forsaken {
      CommitUnpinOwners(s, o, b, q);
      if (x, q) !in s'.forsaken { LeaveUnpinEntitled(s, o, s', x, q); }
    }
    forall x | x in s'.forsaken && x.1 !in s'.torn ensures x.0 in OwnersAt(s', x.1) { CommitUnpinOwners(s, o, b, x.1); }
  }

  lemma UnpinKeepsInv(s: State, o: string, b: UnpinAction)
    requires Inv(s) && UnpinEnabled(s, o, b)
    ensures Inv(UnpinApply(s, o, b))
  {
    match b
    case StartUnpin => StartUnpinKeepsInv(s, o);
    case LockForUnpin => LockForUnpinKeepsInv(s, o);
    case ReadForUnpin => ReadForUnpinKeepsInv(s, o);
    case WriteForUnpin => WriteForUnpinKeepsInv(s, o);
    case CommitUnpin => CommitUnpinMoves(s, o, b); CommitUnpinAccounts(s, o, b);
    case RemoveMarker => CommitUnpinMoves(s, o, b); CommitUnpinAccounts(s, o, b);
    case GiveUpUnpin => GiveUpUnpinKeepsInv(s, o);
    case DropFinalizer => DropFinalizerKeepsInv(s, o);
    case DropFails => DropFailsKeepsInv(s, o);
  }

  lemma CollectKeepsMutex(s: State, c: nat, g: CollectAction)
    requires MutexExact(s) && CollectEnabled(s, c, g)
    ensures MutexExact(CollectApply(s, c, g))
  {}

  lemma CollectKeepsUnlinkSafe(s: State, c: nat, g: CollectAction)
    requires UnlinkSafe(s) && CollectEnabled(s, c, g)
    ensures UnlinkSafe(CollectApply(s, c, g))
  {}

  lemma CollectLeaves(s: State, c: nat, g: CollectAction)
    requires CollectEnabled(s, c, g)
    ensures var s' := CollectApply(s, c, g);
            && s'.keep == s.keep && s'.restores == s.restores && s'.pcs == s.pcs
            && s'.forsaken == s.forsaken && s'.torn == s.torn
  {}

  lemma SameReconcilers(s: State, s': State)
    requires BusyHasFinalizer(s) && WritesCurrent(s)
    requires s'.keep == s.keep && s'.restores == s.restores && s'.pcs == s.pcs && s'.torn == s.torn
    ensures BusyHasFinalizer(s') && WritesCurrent(s')
  {}

  lemma CollectKeepsThreads(s: State, c: nat, g: CollectAction)
    requires Threads(s) && CollectEnabled(s, c, g)
    ensures Threads(CollectApply(s, c, g))
  {
    CollectKeepsMutex(s, c, g);
    CollectKeepsUnlinkSafe(s, c, g);
    CollectLeaves(s, c, g);
    SameReconcilers(s, CollectApply(s, c, g));
  }

  lemma CollectKeepsInv(s: State, c: nat, g: CollectAction)
    requires Inv(s) && CollectEnabled(s, c, g)
    ensures Inv(CollectApply(s, c, g))
  {
    CollectKeepsThreads(s, c, g);
    CollectLeaves(s, c, g);
    SameBooks(s, CollectApply(s, c, g));
  }

  lemma SameBooks(s: State, s': State)
    requires Books(s) && s'.keep == s.keep && s'.restores == s.restores && s'.pcs == s.pcs && s'.forsaken == s.forsaken && s'.torn == s.torn
    ensures Books(s')
  {
    forall p, x | p !in s'.torn && x in OwnersAt(s', p) ensures Entitled(s', x, p) || (x, p) in s'.forsaken {
      assert x in OwnersAt(s, p);
    }
  }

  lemma CrashKeepsInv(s: State)
    requires Inv(s)
    ensures Inv(Restart(s))
  {}

  lemma StepKeepsInv(s: State, step: Step)
    requires Inv(s) && Enabled(s, step)
    ensures Inv(Apply(s, step))
  {
    match step
    case Outside(e) => OutsideKeepsInv(s, e);
    case Pin(o, a) => PinKeepsInv(s, o, a);
    case Unpin(o, b) => UnpinKeepsInv(s, o, b);
    case Collect(c, g) => CollectKeepsInv(s, c, g);
    case Crash => CrashKeepsInv(s);
  }

  lemma {:induction false} RunKeepsInv(s: State, steps: seq<Step>)
    requires Inv(s) && IsRun(s, steps)
    ensures Inv(Exec(s, steps))
    decreases |steps|
  {
    if steps != [] {
      StepKeepsInv(s, steps[0]);
      RunKeepsInv(Apply(s, steps[0]), steps[1..]);
    }
  }

  lemma ReachedInv(s: State, steps: seq<Step>)
    requires Initial(s) && IsRun(s, steps)
    ensures Inv(Exec(s, steps))
  {
    InitialInv(s);
    RunKeepsInv(s, steps);
  }
}
