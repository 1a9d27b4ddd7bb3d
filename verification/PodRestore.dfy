/** The PodRestore controller's two judgements about a spec: whether it is acceptable, and the Pod
    rendered from it. */
module PodRestore {
  import opened Common
  import opened CheckpointPaths
  import ArchiveNames

  const ANNOTATION_PREFIX := "restore.criu.org/checkpoint-path."
  const RESTORE_LABEL := "restore.criu.org/pod-restore"

  datatype ContainerCheckpoint = ContainerCheckpoint(container: string, path: string)

  datatype Container = Container(name: string, image: string)

  datatype RestoreSpec = RestoreSpec(
    ns: string, name: string, uid: string, targetNode: string, checkpoints: seq<ContainerCheckpoint>,
    annotations: map<string, string>, labels: map<string, string>, containers: seq<Container>)

  /** Checkpoints are a list keyed by container. */
  predicate Keyed(checkpoints: seq<ContainerCheckpoint>) {
    forall i, j :: 0 <= i < j < |checkpoints| ==> checkpoints[i].container != checkpoints[j].container
  }

  /** Settings shared by the controller and the proxy. */
  datatype Options = Options(checkpointDir: string, allowCrossNamespace: bool)

  // ---------- validation ----------

  datatype SpecError =
    | ReservedAnnotation(key: string)
    | BadPath(container: string, why: PathError)
    | ForeignNamespace(container: string)
    | NotInTemplate(container: string)

  predicate Reserved(key: string) { ANNOTATION_PREFIX <= key }

  predicate InTemplate(spec: RestoreSpec, container: string) {
    exists i :: 0 <= i < |spec.containers| && spec.containers[i].name == container
  }

  function CheckpointError(spec: RestoreSpec, opts: Options, cp: ContainerCheckpoint): Option<SpecError> {
    var e := ValidateCheckpointPathInDir(cp.path, opts.checkpointDir);
    if e.Some? then Some(BadPath(cp.container, e.value))
    else if !opts.allowCrossNamespace && !ArchiveNames.NamespaceHintOk(Base(cp.path), spec.ns) then
      Some(ForeignNamespace(cp.container))
    else if !InTemplate(spec, cp.container) then Some(NotInTemplate(cp.container))
    else None
  }

  /** The first answer of a check to a list of checkpoints. */
  function FirstAnswer(check: ContainerCheckpoint -> Option<SpecError>, cps: seq<ContainerCheckpoint>): Option<SpecError> {
    if cps == [] then None
    else
      var e := FirstAnswer(check, cps[..|cps| - 1]);
      if e.Some? then e else check(cps[|cps| - 1])
  }

  function Check(spec: RestoreSpec, opts: Options): ContainerCheckpoint -> Option<SpecError> {
    cp => CheckpointError(spec, opts, cp)
  }

  function ReservedKeys(spec: RestoreSpec): set<string> {
    set key | key in spec.annotations && Reserved(key)
  }

  /** The errors validation may answer with. Annotations are visited in no particular order, so any
      reserved one may be named. */
  function PossibleErrors(spec: RestoreSpec, opts: Options): set<SpecError> {
    if ReservedKeys(spec) != {} then set key | key in ReservedKeys(spec) :: ReservedAnnotation(key)
    else
      var e := FirstAnswer(Check(spec, opts), spec.checkpoints);
      if e.Some? then {e.value} else {}
  }

  predicate Possible(spec: RestoreSpec, opts: Options, e: Option<SpecError>) {
    if e.Some? then e.value in PossibleErrors(spec, opts) else PossibleErrors(spec, opts) == {}
  }

  method ValidateSpec(spec: RestoreSpec, opts: Options) returns (e: Option<SpecError>)
    ensures Possible(spec, opts, e)
  {
    var key := FindReserved(spec.annotations);
    if key.Some? { return Some(ReservedAnnotation(key.value)); }
    var inTemplate: set<string> := {};
    for i := 0 to |spec.containers|
      invariant forall c :: c in inTemplate <==> exists k :: 0 <= k < i && spec.containers[k].name == c
    {
      inTemplate := inTemplate + {spec.containers[i].name};
    }
    e := CheckAll(spec, opts, inTemplate);
  }

  /** The loop over the checkpoints stops at the first error. */
  method CheckAll(spec: RestoreSpec, opts: Options, inTemplate: set<string>) returns (e: Option<SpecError>)
    requires forall c :: c in inTemplate <==> InTemplate(spec, c)
    ensures e == FirstAnswer(Check(spec, opts), spec.checkpoints)
  {
    e := None;
    for i := 0 to |spec.checkpoints|
      invariant e.None? && FirstAnswer(Check(spec, opts), spec.checkpoints[..i]).None?
    {
      e := CheckCheckpoint(spec, opts, inTemplate, spec.checkpoints[i]);
      FirstAnswerNext(Check(spec, opts), spec.checkpoints, i, e);
      if e.Some? { return; }
    }
    assert spec.checkpoints[..|spec.checkpoints|] == spec.checkpoints;
  }

  method FindReserved(annotations: map<string, string>) returns (key: Option<string>)
    ensures key.Some? ==> key.value in annotations && Reserved(key.value)
    ensures key.None? ==> forall k :: k in annotations ==> !Reserved(k)
  {
    var keys := annotations.Keys;
    while keys != {}
      invariant keys <= annotations.Keys
      invariant forall k :: k in annotations && k !in keys ==> !Reserved(k)
      decreases |keys|
    {
      var k :| k in keys;
      if Reserved(k) { return Some(k); }
      keys := keys - {k};
    }
    key := None;
  }

  method CheckCheckpoint(spec: RestoreSpec, opts: Options, inTemplate: set<string>, cp: ContainerCheckpoint)
    returns (e: Option<SpecError>)
    requires forall c :: c in inTemplate <==> InTemplate(spec, c)
    ensures e == CheckpointError(spec, opts, cp)
  {
    var pathError := ValidateCheckpointPathInDir(cp.path, opts.checkpointDir);
    if pathError.Some? { return Some(BadPath(cp.container, pathError.value)); }
    if !opts.allowCrossNamespace {
      if !ArchiveNames.NamespaceHintOk(Base(cp.path), spec.ns) { return Some(ForeignNamespace(cp.container)); }
    }
    if cp.container !in inTemplate { return Some(NotInTemplate(cp.container)); }
    e := None;
  }

  /** Behind checkpoints without an answer the next one decides. */
  lemma FirstAnswerNext(
    check: ContainerCheckpoint -> Option<SpecError>, cps: seq<ContainerCheckpoint>, i: nat, e: Option<SpecError>)
    requires i < |cps| && e == check(cps[i]) && FirstAnswer(check, cps[..i]).None?
    ensures FirstAnswer(check, cps[..i + 1]) == e && (e.Some? ==> FirstAnswer(check, cps) == e)
  {
    assert cps[..i + 1][..i] == cps[..i];
    if e.Some? { FirstAnswerStays(check, cps, i + 1); }
  }

  /** The first answer to a prefix is the first answer. */
  lemma {:induction false} FirstAnswerStays(check: ContainerCheckpoint -> Option<SpecError>, cps: seq<ContainerCheckpoint>, n: nat)
    requires n <= |cps| && FirstAnswer(check, cps[..n]).Some?
    ensures FirstAnswer(check, cps) == FirstAnswer(check, cps[..n])
    decreases |cps| - n
  {
    if n == |cps| {
      assert cps[..n] == cps;
    } else {
      assert cps[..n + 1][..n] == cps[..n];
      FirstAnswerStays(check, cps, n + 1);
    }
  }

  /** The check answers with e at position i and with nothing before. */
  predicate FirstAt(check: ContainerCheckpoint -> Option<SpecError>, cps: seq<ContainerCheckpoint>, i: nat, e: SpecError) {
    i < |cps| && check(cps[i]) == Some(e) && forall j :: 0 <= j < i ==> check(cps[j]).None?
  }

  lemma {:induction false} FirstAnswerExact(check: ContainerCheckpoint -> Option<SpecError>, cps: seq<ContainerCheckpoint>, e: SpecError)
    ensures FirstAnswer(check, cps) == Some(e) <==> exists i: nat :: FirstAt(check, cps, i, e)
    ensures FirstAnswer(check, cps).None? <==> forall i :: 0 <= i < |cps| ==> check(cps[i]).None?
  {
    if cps != [] {
      var n := |cps| - 1;
      var init := cps[..n];
      FirstAnswerExact(check, init, e);
      if i: nat :| FirstAt(check, init, i, e) { assert FirstAt(check, cps, i, e); }
      if i: nat :| FirstAt(check, cps, i, e) && i < n { assert init[i] == cps[i] && FirstAt(check, init, i, e); }
      if FirstAnswer(check, init).None? {
        forall j | 0 <= j < n ensures check(cps[j]).None? { assert init[j] == cps[j]; }
        if check(cps[n]) == Some(e) { assert FirstAt(check, cps, n, e); }
      }
    }
  }

  predicate Accepted(spec: RestoreSpec, opts: Options) { PossibleErrors(spec, opts) == {} }

  predicate Sound(spec: RestoreSpec, opts: Options, cp: ContainerCheckpoint) {
    && ValidateCheckpointPathInDir(cp.path, opts.checkpointDir).None?
    && (opts.allowCrossNamespace || ArchiveNames.NamespaceHintOk(Base(cp.path), spec.ns))
    && exists i :: 0 <= i < |spec.containers| && spec.containers[i].name == cp.container
  }

  /** What acceptance means, independently of the order of the checks. */
  lemma AcceptedExact(spec: RestoreSpec, opts: Options)
    ensures Accepted(spec, opts) <==>
            && (forall key :: key in spec.annotations ==> !Reserved(key))
            && (forall i :: 0 <= i < |spec.checkpoints| ==> Sound(spec, opts, spec.checkpoints[i]))
  {
    if key :| key in spec.annotations && Reserved(key) {
      assert key in ReservedKeys(spec);
      assert ReservedAnnotation(key) in PossibleErrors(spec, opts);
    } else {
      assert ReservedKeys(spec) == {};
      FirstAnswerExact(Check(spec, opts), spec.checkpoints, NotInTemplate(""));
      forall i | 0 <= i < |spec.checkpoints|
        ensures Check(spec, opts)(spec.checkpoints[i]).None? <==> Sound(spec, opts, spec.checkpoints[i])
      {
        ErrorExact(spec, opts, spec.checkpoints[i]);
      }
    }
  }

  lemma ErrorExact(spec: RestoreSpec, opts: Options, cp: ContainerCheckpoint)
    ensures CheckpointError(spec, opts, cp).None? <==> Sound(spec, opts, cp)
  {
  }

  /** The error is the one this checkpoint has: its path, else its namespace, else its container. */
  predicate FaultOf(spec: RestoreSpec, opts: Options, cp: ContainerCheckpoint, e: SpecError) {
    var path := ValidateCheckpointPathInDir(cp.path, opts.checkpointDir);
    var foreign := !opts.allowCrossNamespace && !ArchiveNames.NamespaceHintOk(Base(cp.path), spec.ns);
    match e
    case ReservedAnnotation(_) => false
    case BadPath(c, why) => c == cp.container && path == Some(why)
    case ForeignNamespace(c) => c == cp.container && path.None? && foreign
    case NotInTemplate(c) =>
      c == cp.container && path.None? && !foreign &&
      forall i :: 0 <= i < |spec.containers| ==> spec.containers[i].name != c
  }

  /** Position i holds the first checkpoint that is not sound, and this is its error. */
  predicate FirstFault(spec: RestoreSpec, opts: Options, i: nat, e: SpecError) {
    && i < |spec.checkpoints| && FaultOf(spec, opts, spec.checkpoints[i], e)
    && forall j :: 0 <= j < i ==> Sound(spec, opts, spec.checkpoints[j])
  }

  lemma FaultExact(spec: RestoreSpec, opts: Options, cp: ContainerCheckpoint, e: SpecError)
    ensures CheckpointError(spec, opts, cp) == Some(e) <==> FaultOf(spec, opts, cp, e)
  {}

  lemma FirstFaultExact(spec: RestoreSpec, opts: Options, i: nat, e: SpecError)
    ensures FirstAt(Check(spec, opts), spec.checkpoints, i, e) <==> FirstFault(spec, opts, i, e)
  {
    if i < |spec.checkpoints| { FaultExact(spec, opts, spec.checkpoints[i], e); }
    forall j | 0 <= j < i && j < |spec.checkpoints|
      ensures Check(spec, opts)(spec.checkpoints[j]).None? <==> Sound(spec, opts, spec.checkpoints[j])
    {
      ErrorExact(spec, opts, spec.checkpoints[j]);
    }
  }

  /** Exactly which errors validation may answer with: any reserved annotation, and only if there is
      none, the error of the first checkpoint that is not sound. */
  lemma AnswersExactly(spec: RestoreSpec, opts: Options, e: SpecError)
    ensures Possible(spec, opts, Some(e)) <==>
            if e.ReservedAnnotation? then e.key in spec.annotations && "restore.criu.org/checkpoint-path." <= e.key
            else
              && (forall key :: key in spec.annotations ==> !("restore.criu.org/checkpoint-path." <= key))
              && exists i: nat :: FirstFault(spec, opts, i, e)
  {
    FirstAnswerExact(Check(spec, opts), spec.checkpoints, e);
    forall i: nat ensures FirstAt(Check(spec, opts), spec.checkpoints, i, e) <==> FirstFault(spec, opts, i, e) {
      FirstFaultExact(spec, opts, i, e);
    }
    if key :| key in spec.annotations && "restore.criu.org/checkpoint-path." <= key { assert key in ReservedKeys(spec); }
    if ReservedKeys(spec) != {} {
      var key :| key in ReservedKeys(spec);
      assert key in spec.annotations && "restore.criu.org/checkpoint-path." <= key;
    }
  }

  /** Validation has more than one possible answer exactly when two annotations are reserved. */
  lemma AnswerUnique(spec: RestoreSpec, opts: Options)
    ensures (exists e, f :: Possible(spec, opts, e) && Possible(spec, opts, f) && e != f) <==>
            exists k, l :: k in ReservedKeys(spec) && l in ReservedKeys(spec) && k != l
  {
    if k, l :| k in ReservedKeys(spec) && l in ReservedKeys(spec) && k != l {
      assert Possible(spec, opts, Some(ReservedAnnotation(k))) && Possible(spec, opts, Some(ReservedAnnotation(l)));
    }
    if e, f :| Possible(spec, opts, e) && Possible(spec, opts, f) && e != f {
      assert e.Some? && f.Some?;
      assert e.value in PossibleErrors(spec, opts) && f.value in PossibleErrors(spec, opts);
      assert ReservedKeys(spec) != {};
      assert e.value.key in ReservedKeys(spec) && f.value.key in ReservedKeys(spec);
    }
  }

  // ---------- rendering ----------

  datatype RestorePod = RestorePod(
    ns: string, name: string, node: string, controller: string,
    annotations: map<string, string>, labels: map<string, string>, containers: seq<Container>)

  datatype Rendering = Rendered(pod: RestorePod) | RenderFailed(container: string)

  function Template(spec: RestoreSpec): RestorePod {
    RestorePod(spec.ns, spec.name, spec.targetNode, spec.uid, spec.annotations,
               spec.labels[RESTORE_LABEL := spec.name], spec.containers)
  }

  /** Position of the first container of that name, or the length. */
  function ContainerIndex(containers: seq<Container>, name: string): (i: nat)
    ensures i <= |containers|
    ensures i < |containers| ==> containers[i].name == name
    ensures forall k :: 0 <= k < i ==> containers[k].name != name
  {
    if containers == [] then 0
    else
      var n := |containers| - 1;
      var i := ContainerIndex(containers[..n], name);
      if i < n || containers[n].name == name then i else n + 1
  }

  method FindContainer(containers: seq<Container>, name: string) returns (i: nat)
    ensures i == ContainerIndex(containers, name)
  {
    i := 0;
    while i < |containers|
      invariant i <= |containers| && forall k :: 0 <= k < i ==> containers[k].name != name
    {
      if containers[i].name == name { break; }
      i := i + 1;
    }
  }

  /** Base image recorded in each archive; None when it cannot be read. */
  type BaseImages = string -> Option<string>

  /** Renders one checkpoint into the Pod. */
  function Stamp(pod: RestorePod, cp: ContainerCheckpoint, images: BaseImages): Rendering {
    var i := ContainerIndex(pod.containers, cp.container);
    if i == |pod.containers| then RenderFailed(cp.container)
    else
      var stamped := pod.(annotations := pod.annotations[ANNOTATION_PREFIX + cp.container := cp.path]);
      if pod.containers[i].image != "" then Rendered(stamped)
      else if images(cp.path).None? then RenderFailed(cp.container)
      else Rendered(stamped.(containers := pod.containers[i := pod.containers[i].(image := images(cp.path).value)]))
  }

  function Render(pod: RestorePod, cps: seq<ContainerCheckpoint>, images: BaseImages): Rendering {
    if cps == [] then Rendered(pod)
    else
      var n := |cps| - 1;
      var r := Render(pod, cps[..n], images);
      if r.RenderFailed? then r else Stamp(r.pod, cps[n], images)
  }

  method StampPod(pod: RestorePod, cp: ContainerCheckpoint, images: BaseImages) returns (r: Rendering)
    ensures r == Stamp(pod, cp, images)
  {
    var i := FindContainer(pod.containers, cp.container);
    if i == |pod.containers| { return RenderFailed(cp.container); }
    var stamped := pod.(annotations := pod.annotations[ANNOTATION_PREFIX + cp.container := cp.path]);
    if stamped.containers[i].image == "" {
      var image := images(cp.path);
      if image.None? { return RenderFailed(cp.container); }
      stamped := stamped.(containers := stamped.containers[i := stamped.containers[i].(image := image.value)]);
    }
    r := Rendered(stamped);
  }

  method RenderPod(spec: RestoreSpec, images: BaseImages) returns (r: Rendering)
    ensures r == Render(Template(spec), spec.checkpoints, images)
  {
    var pod := RestorePod(spec.ns, spec.name, spec.targetNode, "", spec.annotations, spec.labels, spec.containers);
    pod := pod.(labels := pod.labels[RESTORE_LABEL := spec.name]);
    pod := pod.(controller := spec.uid);
    for i := 0 to |spec.checkpoints|
      invariant Render(Template(spec), spec.checkpoints[..i], images) == Rendered(pod)
    {
      var cp := spec.checkpoints[i];
      assert spec.checkpoints[..i + 1][..i] == spec.checkpoints[..i];
      r := StampPod(pod, cp, images);
      if r.RenderFailed? {
        FailureStays(Template(spec), spec.checkpoints, images, i + 1);
        return;
      }
      pod := r.pod;
    }
    assert spec.checkpoints[..|spec.checkpoints|] == spec.checkpoints;
    r := Rendered(pod);
  }

  lemma {:induction false} FailureStays(pod: RestorePod, cps: seq<ContainerCheckpoint>, images: BaseImages, n: nat)
    requires n <= |cps| && Render(pod, cps[..n], images).RenderFailed?
    ensures Render(pod, cps, images) == Render(pod, cps[..n], images)
    decreases |cps| - n
  {
    if n == |cps| {
      assert cps[..n] == cps;
    } else {
      assert cps[..n + 1][..n] == cps[..n];
      FailureStays(pod, cps, images, n + 1);
    }
  }
}
