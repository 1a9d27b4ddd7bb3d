/** What exactly a PodRestore's object and status look like behind a reconcile pass. */
module RestoreStatus {
  import opened Common
  import opened PodRestore
  import opened RestoreReconcile

  // ---------- the object's life ----------

  /** The object goes exactly when it is deleted without the finalizer, or a pass over the deleted object
      writes the finalizer away; it is marked as deleted by a request alone, and the finalizer is
      added by a pass alone. */
  lemma LifeExactly(spec: RestoreSpec, c: Cluster, event: Event)
    requires c.restore.Some?
    ensures var r, next := c.restore.value, Happen(spec, c, event).restore;
            && (next.None? <==> if r.finalizer then event.APass? && r.deleting && event.p.writeOk else event.DeleteRequested?)
            && (next.Some? ==> (next.value.deleting <==> r.deleting || event.DeleteRequested?))
            && (next.Some? ==> (next.value.finalizer <==> r.finalizer || (event.APass? && !r.deleting && event.p.writeOk)))
            && (next.Some? && next.value.status != r.status ==> event.APass? && Live(c) && event.p.writeOk)
  {}

  lemma {:induction false} PathsInOrder(cps: seq<ContainerCheckpoint>)
    ensures |Paths(cps)| == |cps| && forall i :: 0 <= i < |cps| ==> Paths(cps)[i] == cps[i].path
  {
    if cps != [] { PathsInOrder(cps[..|cps| - 1]); }
  }

  // ---------- the reason it gives ----------

  /** Why the restore is or is not ready, in the order of the causes. */
  function ReasonOf(spec: RestoreSpec, w: World, c: Cluster, e: Option<SpecError>): Why
    requires c.restore.Some?
  {
    if e.Some? then InvalidSpec(e.value)
    else if !w.nodeExists then NodeNotFound
    else if c.pod.Some? then PodReason(c.pod.value)
    else if c.restore.value.status.podName != "" then PodMissing
    else
      var r := Render(Template(spec), spec.checkpoints, w.images);
      if r.RenderFailed? then RenderFailure(r.container) else Restoring
  }

  function PodReason(pod: Pod): Why {
    if !pod.owned then PodConflict
    else if pod.phase == Running || pod.phase == Succeeded then Restored
    else if pod.phase != Failed then Restoring
    else PodFailed(if pod.reason != "" then pod.reason else "the restore Pod entered the Failed phase")
  }

  /** The transition time of a condition moves exactly when its truth value does. */
  predicate Moves(before: Option<Condition>, after: Option<Condition>, now: int) {
    && after.Some?
    && if before.Some? && before.value.holds == after.value.holds then after.value.since == before.value.since
       else after.value.since == now
  }

  /** The status a pass is to leave. */
  predicate Tells(spec: RestoreSpec, w: World, c: Cluster, e: Option<SpecError>, now: int, st: Status)
    requires c.restore.Some?
  {
    var r, reason := c.restore.value, ReasonOf(spec, w, c, e);
    var pinsTried := e.None? && w.nodeExists;
    && Moves(r.status.ready, st.ready, now) && st.ready.value.holds == (reason == Restored)
    && st.ready.value.why == reason && st.ready.value.generation == r.generation && st.generation == r.generation
    && st.podName == (if pinsTried && (if c.pod.Some? then c.pod.value.owned else reason == Restoring)
                      then spec.name else r.status.podName)
    && if !pinsTried then st.pinned == r.status.pinned
       else
         && Moves(r.status.pinned, st.pinned, now) && st.pinned.value.generation == r.generation
         && st.pinned.value.holds == (forall cp :: cp in spec.checkpoints ==> w.pins(cp.path))
         && st.pinned.value.why == if st.pinned.value.holds then Pinned else PinNotEnforced
  }

  lemma PodPassTells(spec: RestoreSpec, w: World, c: Cluster, p: Pass)
    requires Live(c) && Faithful(w, c, p) && FaultFree(p) && w.nodeExists
    ensures var next := EnsurePod(spec, c, c.restore.value, p);
            next.restore.Some? && Tells(spec, w, c, None, p.now, next.restore.value.status)
  {}

  /** A pass without faults leaves a status that gives exactly the first reason that applies, names the
      Pod exactly if it is the restore's own, and moves a transition time exactly when a truth value
      changes. */
  lemma StatusExactly(spec: RestoreSpec, w: World, c: Cluster, p: Pass, e: Option<SpecError>)
    requires Live(c) && Faithful(w, c, p) && FaultFree(p)
    ensures var next := Step(spec, c, p, e);
            next.restore.Some? && Tells(spec, w, c, e, p.now, next.restore.value.status)
  {
    if e.None? && w.nodeExists { PodPassTells(spec, w, c, p); }
  }
}
