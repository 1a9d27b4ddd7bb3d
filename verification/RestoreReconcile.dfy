/** The PodRestore reconcile loop: a level-based pass that re-derives the status and writes it only
    when it changed. */
module RestoreReconcile {
  import opened Common
  import opened PodRestore

  /** Reason and message of a condition. */
  datatype Why =
    | InvalidSpec(error: SpecError)
    | NodeNotFound
    | Pinned
    | PinNotEnforced
    | PodMissing
    | RenderFailure(container: string)
    | PodConflict
    | Restored
    | PodFailed(text: string)
    | Restoring

  datatype Condition = Condition(holds: bool, why: Why, generation: int, since: int)

  datatype Status = Status(ready: Option<Condition>, pinned: Option<Condition>, podName: string, generation: int)

  datatype Restore = Restore(deleting: bool, finalizer: bool, generation: int, status: Status)

  datatype Phase = Pending | Running | Succeeded | Failed | Unknown

  datatype Pod = Pod(owned: bool, phase: Phase, reason: string)

  /** The PodRestore object and the Pod of its name; None when absent. */
  datatype Cluster = Cluster(restore: Option<Restore>, pod: Option<Pod>)

  datatype NodeRead = NodeFound | NodeAbsent | NodeError

  datatype PodRead = PodFound(pod: Pod) | PodAbsent | PodError

  /** AlreadyExists carries what the second read finds; None when it fails. */
  datatype Create = Created | AlreadyExists(reread: Option<Pod>) | CreateError

  /** What one pass meets. */
  datatype Pass = Pass(
    now: int, node: NodeRead, pins: string -> bool, images: BaseImages, pod: PodRead, create: Create, writeOk: bool)

  // ---------- one pass on values ----------

  /** meta.SetStatusCondition: the transition time moves only when the truth value does. */
  function Set(before: Option<Condition>, holds: bool, why: Why, generation: int, now: int): Option<Condition> {
    Some(Condition(holds, why, generation, if before.Some? && before.value.holds == holds then before.value.since else now))
  }

  function WithReady(r: Restore, st: Status, holds: bool, why: Why, now: int): Status {
    st.(ready := Set(st.ready, holds, why, r.generation, now))
  }

  function WithPinned(spec: RestoreSpec, r: Restore, p: Pass): Status {
    var all := forall cp :: cp in spec.checkpoints ==> p.pins(cp.path);
    r.status.(pinned := Set(r.status.pinned, all, if all then Pinned else PinNotEnforced, r.generation, p.now))
  }

  /** The status is written only when it differs from the stored one. */
  function Save(c: Cluster, r: Restore, st: Status, p: Pass): Cluster {
    var next := st.(generation := r.generation);
    if next == r.status || !p.writeOk then c else c.(restore := Some(r.(status := next)))
  }

  /** Maps the observed Pod onto the Ready condition. */
  function Observe(spec: RestoreSpec, r: Restore, st: Status, pod: Pod, now: int): Status {
    if !pod.owned then WithReady(r, st, false, PodConflict, now)
    else
      var named := st.(podName := spec.name);
      match pod.phase
      case Running => WithReady(r, named, true, Restored, now)
      case Succeeded => WithReady(r, named, true, Restored, now)
      case Failed => WithReady(r, named, false,
        PodFailed(if pod.reason == "" then "the restore Pod entered the Failed phase" else pod.reason), now)
      case _ => WithReady(r, named, false, Restoring, now)
  }

  const FRESH_POD := Pod(true, Pending, "")

  /** The pass once spec and node are known to be good. */
  function EnsurePod(spec: RestoreSpec, c: Cluster, r: Restore, p: Pass): Cluster {
    var st := WithPinned(spec, r, p);
    match p.pod
    case PodError => c
    case PodFound(pod) => Save(c, r, Observe(spec, r, st, pod, p.now), p)
    case PodAbsent =>
      if st.podName != "" then Save(c, r, WithReady(r, st, false, PodMissing, p.now), p)
      else
        match Render(Template(spec), spec.checkpoints, p.images)
        case RenderFailed(container) => Save(c, r, WithReady(r, st, false, RenderFailure(container), p.now), p)
        case Rendered(_) =>
          match p.create
          case CreateError => c
          case AlreadyExists(None) => c
          case AlreadyExists(Some(pod)) => Save(c, r, Observe(spec, r, st, pod, p.now), p)
          case Created => Save(c.(pod := Some(FRESH_POD)), r, Observe(spec, r, st, FRESH_POD, p.now), p)
  }

  /** One pass over an object that stays, given validation's answer. */
  function Drive(spec: RestoreSpec, c: Cluster, r: Restore, p: Pass, e: Option<SpecError>): Cluster {
    if e.Some? then Save(c, r, WithReady(r, r.status, false, InvalidSpec(e.value), p.now), p)
    else if p.node.NodeError? then c
    else if p.node.NodeAbsent? then Save(c, r, WithReady(r, r.status, false, NodeNotFound, p.now), p)
    else EnsurePod(spec, c, r, p)
  }

  function Step(spec: RestoreSpec, c: Cluster, p: Pass, e: Option<SpecError>): Cluster {
    if c.restore.None? then c
    else
      var r := c.restore.value;
      if r.deleting then (if r.finalizer && p.writeOk then c.(restore := None) else c)
      else if !r.finalizer then (if p.writeOk then c.(restore := Some(r.(finalizer := true))) else c)
      else Drive(spec, c, r, p, e)
  }

  /** The object carries the finalizer and is not being deleted: passes go beyond bookkeeping. */
  predicate Live(c: Cluster) { c.restore.Some? && c.restore.value.finalizer && !c.restore.value.deleting }

  function Paths(cps: seq<ContainerCheckpoint>): seq<string> {
    if cps == [] then [] else Paths(cps[..|cps| - 1]) + [cps[|cps| - 1].path]
  }

  // ---------- the controller ----------

  class Reconciler {
    const spec: RestoreSpec
    const opts: Options
    var restore: Option<Restore>
    var pod: Option<Pod>
    /** Paths of the pin and unpin calls made so far. */
    var pinCalls: seq<string>
    var unpinCalls: seq<string>

    constructor (spec: RestoreSpec, opts: Options, c: Cluster)
      ensures this.spec == spec && this.opts == opts && State() == c && pinCalls == [] && unpinCalls == []
    {
      this.spec, this.opts, this.restore, this.pod := spec, opts, c.restore, c.pod;
      pinCalls, unpinCalls := [], [];
    }

    function State(): Cluster
      reads this
    {
      Cluster(restore, pod)
    }

    method SaveStatus(st: Status, p: Pass)
      requires restore.Some?
      modifies this`restore
      ensures State() == Save(old(State()), old(restore.value), st, p)
    {
      var next := st.(generation := restore.value.generation);
      if next == restore.value.status { return; }
      if p.writeOk { restore := Some(restore.value.(status := next)); }
    }

    /** Every checkpoint is pinned, also after one that could not be. */
    method PinAll(p: Pass) returns (all: bool)
      modifies this`pinCalls
      ensures all == forall cp :: cp in spec.checkpoints ==> p.pins(cp.path)
      ensures pinCalls == old(pinCalls) + Paths(spec.checkpoints)
    {
      all := true;
      for i := 0 to |spec.checkpoints|
        invariant all == forall k :: 0 <= k < i ==> p.pins(spec.checkpoints[k].path)
        invariant pinCalls == old(pinCalls) + Paths(spec.checkpoints[..i])
      {
        assert spec.checkpoints[..i + 1][..i] == spec.checkpoints[..i];
        pinCalls := pinCalls + [spec.checkpoints[i].path];
        if !p.pins(spec.checkpoints[i].path) { all := false; }
      }
      assert spec.checkpoints[..|spec.checkpoints|] == spec.checkpoints;
    }

    method UnpinAll()
      modifies this`unpinCalls
      ensures unpinCalls == old(unpinCalls) + Paths(spec.checkpoints)
    {
      for i := 0 to |spec.checkpoints|
        invariant unpinCalls == old(unpinCalls) + Paths(spec.checkpoints[..i])
      {
        assert spec.checkpoints[..i + 1][..i] == spec.checkpoints[..i];
        unpinCalls := unpinCalls + [spec.checkpoints[i].path];
      }
      assert spec.checkpoints[..|spec.checkpoints|] == spec.checkpoints;
    }

    method Report(st: Status, found: Pod, p: Pass)
      requires restore.Some?
      modifies this`restore
      ensures State() == Save(old(State()), old(restore.value), Observe(spec, old(restore.value), st, found, p.now), p)
    {
      var r := restore.value;
      if !found.owned {
        SaveStatus(WithReady(r, st, false, PodConflict, p.now), p);
        return;
      }
      var named := st.(podName := spec.name);
      match found.phase {
        case Running => SaveStatus(WithReady(r, named, true, Restored, p.now), p);
        case Succeeded => SaveStatus(WithReady(r, named, true, Restored, p.now), p);
        case Failed =>
          var reason := found.reason;
          if reason == "" { reason := "the restore Pod entered the Failed phase"; }
          SaveStatus(WithReady(r, named, false, PodFailed(reason), p.now), p);
        case _ => SaveStatus(WithReady(r, named, false, Restoring, p.now), p);
      }
    }

    method CreatePod(st: Status, p: Pass)
      requires restore.Some? && p.pod.PodAbsent? && st == WithPinned(spec, restore.value, p)
      modifies this`restore, this`pod
      ensures State() == EnsurePod(spec, old(State()), old(restore.value), p)
    {
      var r := restore.value;
      if st.podName != "" {
        SaveStatus(WithReady(r, st, false, PodMissing, p.now), p);
        return;
      }
      var rendering := RenderPod(spec, p.images);
      if rendering.RenderFailed? {
        SaveStatus(WithReady(r, st, false, RenderFailure(rendering.container), p.now), p);
        return;
      }
      match p.create {
        case CreateError => return;
        case AlreadyExists(reread) =>
          if reread.None? { return; }
          Report(st, reread.value, p);
        case Created =>
          pod := Some(FRESH_POD);
          Report(st, FRESH_POD, p);
      }
    }

    method Reconcile(p: Pass) returns (e: Option<SpecError>)
      modifies this
      ensures old(Live(State())) ==> Possible(spec, opts, e)
      ensures State() == Step(spec, old(State()), p, e)
      ensures pinCalls == old(pinCalls) +
                if old(Live(State())) && e.None? && p.node.NodeFound? then Paths(spec.checkpoints) else []
      ensures unpinCalls == old(unpinCalls) +
                if old(restore.Some? && restore.value.deleting && restore.value.finalizer) then Paths(spec.checkpoints) else []
    {
      e := None;
      if restore.None? { return; }
      var r := restore.value;
      if r.deleting {
        if r.finalizer {
          UnpinAll();
          if p.writeOk { restore := None; }
        }
        return;
      }
      if !r.finalizer {
        if p.writeOk { restore := Some(r.(finalizer := true)); }
        return;
      }
      e := ValidateSpec(spec, opts);
      if e.Some? {
        SaveStatus(WithReady(r, r.status, false, InvalidSpec(e.value), p.now), p);
        return;
      }
      if p.node.NodeError? { return; }
      if p.node.NodeAbsent? {
        SaveStatus(WithReady(r, r.status, false, NodeNotFound, p.now), p);
        return;
      }
      var all := PinAll(p);
      var st := r.status.(pinned := Set(r.status.pinned, all, if all then Pinned else PinNotEnforced, r.generation, p.now));
      match p.pod {
        case PodError => return;
        case PodFound(found) => Report(st, found, p);
        case PodAbsent => CreatePod(st, p);
      }
    }
  }

  // ---------- no second restore ----------

  /** Once the name of the restore Pod is persisted no pass creates a Pod or forgets the name,
      whatever it reads. */
  lemma NoSecondPod(spec: RestoreSpec, c: Cluster, p: Pass, e: Option<SpecError>)
    requires spec.name != "" && c.restore.Some? && c.restore.value.status.podName != ""
    ensures Step(spec, c, p, e).pod == c.pod
    ensures Step(spec, c, p, e).restore.Some? ==> Step(spec, c, p, e).restore.value.status.podName != ""
  {
  }

  // ---------- how many Pods a restore creates ----------

  /** What happens to the object and its Pod: a pass of the controller, others who create, change or
      delete the Pod, or a request to delete the object. */
  datatype Event = APass(p: Pass, e: Option<SpecError>) | OthersSet(pod: Option<Pod>) | DeleteRequested

  function Happen(spec: RestoreSpec, c: Cluster, event: Event): Cluster {
    match event
    case APass(p, e) => Step(spec, c, p, e)
    case OthersSet(pod) => c.(pod := pod)
    case DeleteRequested =>
      if c.restore.None? then c
      else if !c.restore.value.finalizer then c.(restore := None)
      else c.(restore := Some(c.restore.value.(deleting := true)))
  }

  function AfterAll(spec: RestoreSpec, c: Cluster, events: seq<Event>): Cluster
    decreases |events|
  {
    if events == [] then c else AfterAll(spec, Happen(spec, c, events[0]), events[1..])
  }

  function PodNameOf(c: Cluster): string { if c.restore.Some? then c.restore.value.status.podName else "" }

  /** The pass gets as far as creating a Pod. */
  predicate Creates(spec: RestoreSpec, c: Cluster, p: Pass, e: Option<SpecError>) {
    && Live(c) && e.None? && p.node.NodeFound? && p.pod.PodAbsent? && PodNameOf(c) == ""
    && Render(Template(spec), spec.checkpoints, p.images).Rendered? && p.create.Created?
  }

  /** Only such a pass changes the Pod; its status write alone decides whether the name is kept. */
  lemma CreationStep(spec: RestoreSpec, c: Cluster, p: Pass, e: Option<SpecError>)
    requires spec.name != ""
    ensures Step(spec, c, p, e).pod == if Creates(spec, c, p, e) then Some(FRESH_POD) else c.pod
    ensures Creates(spec, c, p, e) ==> PodNameOf(Step(spec, c, p, e)) == if p.writeOk then spec.name else ""
  {
    if c.restore.Some? && PodNameOf(c) != "" { NoSecondPod(spec, c, p, e); }
  }

  /** A recorded name is never forgotten while the object exists. */
  lemma NameStays(spec: RestoreSpec, c: Cluster, event: Event)
    requires spec.name != "" && c.restore.Some? && PodNameOf(c) != ""
    ensures Happen(spec, c, event).restore.None? || PodNameOf(Happen(spec, c, event)) != ""
  {
    if event.APass? { NoSecondPod(spec, c, event.p, event.e); }
  }

  /** The creating passes of a run, and those of them whose status write failed. */
  function Creations(spec: RestoreSpec, c: Cluster, events: seq<Event>): nat
    decreases |events|
  {
    if events == [] then 0
    else (if events[0].APass? && Creates(spec, c, events[0].p, events[0].e) then 1 else 0) +
         Creations(spec, Happen(spec, c, events[0]), events[1..])
  }

  function LostCreations(spec: RestoreSpec, c: Cluster, events: seq<Event>): nat
    decreases |events|
  {
    if events == [] then 0
    else (if events[0].APass? && Creates(spec, c, events[0].p, events[0].e) && !events[0].p.writeOk then 1 else 0) +
         LostCreations(spec, Happen(spec, c, events[0]), events[1..])
  }

  /** Gone, or with the name of its Pod on record. */
  predicate Finished(c: Cluster) { c.restore.None? || PodNameOf(c) != "" }

  lemma FinishedStep(spec: RestoreSpec, c: Cluster, event: Event)
    requires spec.name != "" && Finished(c)
    ensures Finished(Happen(spec, c, event)) && !(event.APass? && Creates(spec, c, event.p, event.e))
  {
    if c.restore.Some? { NameStays(spec, c, event); }
  }

  lemma {:induction false} FinishedCreatesNothing(spec: RestoreSpec, c: Cluster, events: seq<Event>)
    requires spec.name != "" && Finished(c)
    ensures Creations(spec, c, events) == 0 == LostCreations(spec, c, events)
    decreases |events|
  {
    if events != [] {
      FinishedStep(spec, c, events[0]);
      FinishedCreatesNothing(spec, Happen(spec, c, events[0]), events[1..]);
    }
  }

  /** Over any run, whatever is read and whoever deletes the Pod, a restore creates at most one Pod more
      than status writes fail behind a creation. */
  lemma {:induction false} CreationsBounded(spec: RestoreSpec, c: Cluster, events: seq<Event>)
    requires spec.name != ""
    ensures LostCreations(spec, c, events) <= Creations(spec, c, events) <= LostCreations(spec, c, events) + 1
    decreases |events|
  {
    if events != [] {
      var next := Happen(spec, c, events[0]);
      CreationsBounded(spec, next, events[1..]);
      if events[0].APass? && Creates(spec, c, events[0].p, events[0].e) && events[0].p.writeOk {
        CreationStep(spec, c, events[0].p, events[0].e);
        FinishedCreatesNothing(spec, next, events[1..]);
      }
    }
  }

  /** No event puts the name of a Pod on record. */
  predicate NoneAdopts(spec: RestoreSpec, c: Cluster, events: seq<Event>)
    decreases |events|
  {
    events == [] || (PodNameOf(Happen(spec, c, events[0])) == "" && NoneAdopts(spec, Happen(spec, c, events[0]), events[1..]))
  }

  lemma {:induction false} UnnamedExactly(spec: RestoreSpec, c: Cluster, events: seq<Event>)
    requires spec.name != "" && AfterAll(spec, c, events).restore.Some?
    ensures PodNameOf(AfterAll(spec, c, events)) == "" <==> PodNameOf(c) == "" && NoneAdopts(spec, c, events)
    decreases |events|
  {
    if events != [] {
      var next := Happen(spec, c, events[0]);
      UnnamedExactly(spec, next, events[1..]);
      if c.restore.None? {
        GoneStaysGone(spec, c, events);
      } else if PodNameOf(c) != "" {
        NameStays(spec, c, events[0]);
        if next.restore.None? { GoneStaysGone(spec, next, events[1..]); }
      }
    }
  }

  lemma {:induction false} GoneStaysGone(spec: RestoreSpec, c: Cluster, events: seq<Event>)
    requires c.restore.None?
    ensures AfterAll(spec, c, events).restore.None?
    decreases |events|
  {
    if events != [] { GoneStaysGone(spec, Happen(spec, c, events[0]), events[1..]); }
  }

  /** A second Pod, exactly: behind a creation, a pass that meets no obstacle and reads the Pod as it is
      creates another one if and only if the status write of the first failed, no event since has put
      the name on record, and the Pod is gone. */
  lemma SecondPodExactly(spec: RestoreSpec, c: Cluster, p: Pass, between: seq<Event>, q: Pass)
    requires spec.name != "" && Creates(spec, c, p, None)
    requires var d := AfterAll(spec, Step(spec, c, p, None), between);
             && Live(d) && FaultFree(q) && q.node.NodeFound?
             && Render(Template(spec), spec.checkpoints, q.images).Rendered?
             && (q.pod.PodAbsent? <==> d.pod.None?)
    ensures var d := AfterAll(spec, Step(spec, c, p, None), between);
            Creates(spec, d, q, None) <==>
            !p.writeOk && NoneAdopts(spec, Step(spec, c, p, None), between) && d.pod.None?
  {
    CreationStep(spec, c, p, None);
    UnnamedExactly(spec, Step(spec, c, p, None), between);
  }

  // ---------- settling ----------

  /** What does not change between passes; single reads and writes may still fail. */
  datatype World = World(nodeExists: bool, pins: string -> bool, images: BaseImages)

  ghost predicate Faithful(w: World, c: Cluster, p: Pass) {
    && p.pins == w.pins && p.images == w.images
    && (p.node == NodeError || p.node == if w.nodeExists then NodeFound else NodeAbsent)
    && (p.pod == PodError || p.pod == if c.pod.Some? then PodFound(c.pod.value) else PodAbsent)
    && !p.create.AlreadyExists?
  }

  predicate FaultFree(p: Pass) { p.writeOk && !p.node.NodeError? && !p.pod.PodError? && p.create.Created? }

  datatype Turn = Turn(p: Pass, e: Option<SpecError>)

  ghost predicate IsRun(spec: RestoreSpec, opts: Options, w: World, c: Cluster, run: seq<Turn>)
    decreases |run|
  {
    run == [] ||
    (Faithful(w, c, run[0].p) && Possible(spec, opts, run[0].e) &&
     IsRun(spec, opts, w, Step(spec, c, run[0].p, run[0].e), run[1..]))
  }

  /** Number of passes that write the PodRestore object. */
  function Writes(spec: RestoreSpec, c: Cluster, run: seq<Turn>): nat
    decreases |run|
  {
    if run == [] then 0
    else
      var next := Step(spec, c, run[0].p, run[0].e);
      (if next.restore != c.restore then 1 else 0) + Writes(spec, next, run[1..])
  }

  predicate TwoReserved(spec: RestoreSpec) {
    exists k, l :: k in ReservedKeys(spec) && l in ReservedKeys(spec) && k != l
  }

  /** No faithful pass changes anything any more. */
  ghost predicate Settled(spec: RestoreSpec, opts: Options, w: World, c: Cluster) {
    forall p, e :: Faithful(w, c, p) && Possible(spec, opts, e) ==> Step(spec, c, p, e) == c
  }

  lemma AnswersEqual(spec: RestoreSpec, opts: Options, e: Option<SpecError>, f: Option<SpecError>)
    requires !TwoReserved(spec) && Possible(spec, opts, e) && Possible(spec, opts, f)
    ensures e == f
  {
    AnswerUnique(spec, opts);
  }

  /** Redoing the pass that produced the stored status changes nothing. */
  lemma SameAgain(spec: RestoreSpec, w: World, c: Cluster, p: Pass, q: Pass, e: Option<SpecError>)
    requires Live(c) && Faithful(w, c, p)
    requires Step(spec, c, p, e).restore != c.restore || FaultFree(p)
    requires Faithful(w, Step(spec, c, p, e), q)
    ensures Step(spec, Step(spec, c, p, e), q, e) == Step(spec, c, p, e)
  {
  }

  /** After a pass that writes the status, or that meets no fault, the restore is settled. */
  lemma WriteSettles(spec: RestoreSpec, opts: Options, w: World, c: Cluster, p: Pass, e: Option<SpecError>)
    requires !TwoReserved(spec) && Live(c) && Faithful(w, c, p) && Possible(spec, opts, e)
    requires Step(spec, c, p, e).restore != c.restore || FaultFree(p)
    ensures Settled(spec, opts, w, Step(spec, c, p, e))
  {
    var next := Step(spec, c, p, e);
    forall q, f | Faithful(w, next, q) && Possible(spec, opts, f)
      ensures Step(spec, next, q, f) == next
    {
      AnswersEqual(spec, opts, e, f);
      SameAgain(spec, w, c, p, q, e);
    }
  }

  lemma {:induction false} SettledRuns(spec: RestoreSpec, opts: Options, w: World, c: Cluster, run: seq<Turn>)
    requires Settled(spec, opts, w, c) && IsRun(spec, opts, w, c, run)
    ensures Writes(spec, c, run) == 0
    decreases |run|
  {
    if run != [] { SettledRuns(spec, opts, w, c, run[1..]); }
  }

  lemma LiveStays(spec: RestoreSpec, c: Cluster, p: Pass, e: Option<SpecError>)
    requires Live(c)
    ensures Live(Step(spec, c, p, e))
  {
  }

  lemma {:induction false} LiveWritesOnce(spec: RestoreSpec, opts: Options, w: World, c: Cluster, run: seq<Turn>)
    requires !TwoReserved(spec) && Live(c) && IsRun(spec, opts, w, c, run)
    ensures Writes(spec, c, run) <= 1
    decreases |run|
  {
    if run != [] {
      var next := Step(spec, c, run[0].p, run[0].e);
      if next.restore != c.restore {
        WriteSettles(spec, opts, w, c, run[0].p, run[0].e);
        SettledRuns(spec, opts, w, next, run[1..]);
      } else {
        LiveStays(spec, c, run[0].p, run[0].e);
        LiveWritesOnce(spec, opts, w, next, run[1..]);
      }
    }
  }

  /** Idempotent observation: in an unchanging world at most two passes ever write the object, the
      one that adds (or drops) the finalizer and one that writes the status, whatever faults occur. */
  lemma {:induction false} AtMostTwoWrites(spec: RestoreSpec, opts: Options, w: World, c: Cluster, run: seq<Turn>)
    requires !TwoReserved(spec) && IsRun(spec, opts, w, c, run)
    ensures Writes(spec, c, run) <= 2
    decreases |run|
  {
    if run != [] {
      var next := Step(spec, c, run[0].p, run[0].e);
      if Live(c) {
        LiveWritesOnce(spec, opts, w, c, run);
      } else if next.restore == c.restore {
        AtMostTwoWrites(spec, opts, w, next, run[1..]);
      } else if Live(next) {
        LiveWritesOnce(spec, opts, w, next, run[1..]);
      } else {
        SettledRuns(spec, opts, w, next, run[1..]);
      }
    }
  }

  /** Two passes without faults settle the restore from any state. */
  lemma TwoPassesSettle(spec: RestoreSpec, opts: Options, w: World, c: Cluster, first: Turn, second: Turn)
    requires !TwoReserved(spec) && IsRun(spec, opts, w, c, [first, second])
    requires FaultFree(first.p) && FaultFree(second.p)
    ensures Settled(spec, opts, w, Step(spec, Step(spec, c, first.p, first.e), second.p, second.e))
  {
    var mid := Step(spec, c, first.p, first.e);
    assert [first, second][1..] == [second];
    if Live(c) { WriteSettles(spec, opts, w, c, first.p, first.e); }
    if Live(mid) { WriteSettles(spec, opts, w, mid, second.p, second.e); }
  }

  // ---------- what the status means ----------

  lemma SavedStatus(c: Cluster, r: Restore, st: Status, p: Pass)
    requires c.restore == Some(r) && p.writeOk
    ensures Save(c, r, st, p) == c.(restore := Some(r.(status := st.(generation := r.generation))))
  {
  }

  predicate HasRun(c: Cluster) {
    c.pod.Some? && c.pod.value.owned && (c.pod.value.phase.Running? || c.pod.value.phase.Succeeded?)
  }

  /** The condition says so, and it is there. */
  predicate Says(condition: Option<Condition>, holds: bool) { condition.Some? && condition.value.holds == holds }

  lemma PodTellsTheTruth(spec: RestoreSpec, w: World, c: Cluster, r: Restore, p: Pass)
    requires c.restore == Some(r) && Faithful(w, c, p) && FaultFree(p)
    ensures var next := EnsurePod(spec, c, r, p);
            && next.restore.Some? && Says(next.restore.value.status.ready, HasRun(next))
            && next.restore.value.status.pinned == WithPinned(spec, r, p).pinned
  {
    var st := WithPinned(spec, r, p);
    if c.pod.Some? {
      SavedStatus(c, r, Observe(spec, r, st, c.pod.value, p.now), p);
    } else if st.podName != "" {
      SavedStatus(c, r, WithReady(r, st, false, PodMissing, p.now), p);
    } else {
      var rendering := Render(Template(spec), spec.checkpoints, p.images);
      if rendering.RenderFailed? {
        SavedStatus(c, r, WithReady(r, st, false, RenderFailure(rendering.container), p.now), p);
      } else {
        SavedStatus(c.(pod := Some(FRESH_POD)), r, Observe(spec, r, st, FRESH_POD, p.now), p);
      }
    }
  }

  /** What a reader of the status may conclude: after a pass without faults the restore is Ready
      exactly when the spec is acceptable, the node exists and the Pod of that name is the restore's
      own and has run; unless the pass stopped before pinning, CheckpointsPinned holds exactly when
      every checkpoint is pinned. */
  lemma StatusTellsTheTruth(spec: RestoreSpec, opts: Options, w: World, c: Cluster, p: Pass, e: Option<SpecError>)
    requires Live(c) && Faithful(w, c, p) && FaultFree(p) && Possible(spec, opts, e)
    ensures var next := Step(spec, c, p, e);
            && next.restore.Some?
            && Says(next.restore.value.status.ready, Accepted(spec, opts) && w.nodeExists && HasRun(next))
            && (Accepted(spec, opts) && w.nodeExists ==>
                  Says(next.restore.value.status.pinned, forall cp :: cp in spec.checkpoints ==> w.pins(cp.path)))
  {
    var r := c.restore.value;
    if e.Some? {
      assert e.value in PossibleErrors(spec, opts);
      SavedStatus(c, r, WithReady(r, r.status, false, InvalidSpec(e.value), p.now), p);
    } else if !w.nodeExists {
      SavedStatus(c, r, WithReady(r, r.status, false, NodeNotFound, p.now), p);
    } else {
      PodTellsTheTruth(spec, w, c, r, p);
    }
  }

  /** A Pod is created exactly when the spec is acceptable and renders, the node exists, and no Pod is
      there or was ever recorded. */
  lemma CreatesExactly(spec: RestoreSpec, opts: Options, w: World, c: Cluster, p: Pass, e: Option<SpecError>)
    requires Live(c) && Faithful(w, c, p) && FaultFree(p) && Possible(spec, opts, e)
    ensures Step(spec, c, p, e).pod != c.pod <==>
            && Accepted(spec, opts) && w.nodeExists && c.pod.None? && c.restore.value.status.podName == ""
            && Render(Template(spec), spec.checkpoints, w.images).Rendered?
  {
    if e.Some? { assert e.value in PossibleErrors(spec, opts); }
  }

  // ---------- two reserved annotations ----------

  predicate Blames(c: Cluster, e: SpecError) {
    c.restore.Some? && c.restore.value.status.ready.Some? && c.restore.value.status.ready.value.why == InvalidSpec(e)
  }

  /** With two reserved annotations in the template, validation may name either, so every pass of a
      run of any length may write. */
  lemma {:induction false} ReservedKeysFlap(spec: RestoreSpec, opts: Options, w: World, c: Cluster, n: nat) returns (run: seq<Turn>)
    requires TwoReserved(spec) && Live(c)
    ensures |run| == n && IsRun(spec, opts, w, c, run) && Writes(spec, c, run) == n
    decreases n
  {
    if n == 0 { return []; }
    var k, l :| k in ReservedKeys(spec) && l in ReservedKeys(spec) && k != l;
    var e := if Blames(c, ReservedAnnotation(k)) then ReservedAnnotation(l) else ReservedAnnotation(k);
    var p := Pass(0, NodeError, w.pins, w.images, PodError, Created, true);
    var next := Step(spec, c, p, Some(e));
    assert Possible(spec, opts, Some(e));
    assert Blames(next, e) && Live(next);
    var rest := ReservedKeysFlap(spec, opts, w, next, n - 1);
    run := [Turn(p, Some(e))] + rest;
    assert run[1..] == rest;
  }

  /** The loop comes to rest exactly when the template carries at most one reserved annotation. */
  lemma ComesToRestExactly(spec: RestoreSpec, opts: Options, w: World, c: Cluster)
    requires Live(c)
    ensures (forall run :: IsRun(spec, opts, w, c, run) ==> Writes(spec, c, run) <= 2) <==> !TwoReserved(spec)
  {
    if TwoReserved(spec) {
      var run := ReservedKeysFlap(spec, opts, w, c, 3);
      assert IsRun(spec, opts, w, c, run) && Writes(spec, c, run) == 3;
    } else {
      forall run | IsRun(spec, opts, w, c, run)
        ensures Writes(spec, c, run) <= 2
      {
        AtMostTwoWrites(spec, opts, w, c, run);
      }
    }
  }
}
