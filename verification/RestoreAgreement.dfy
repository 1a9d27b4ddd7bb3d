/** Controller and proxy agree: what the controller accepts and renders is what the proxy restores,
    container by container, and whatever the proxy restores is confined. */
module RestoreAgreement {
  import opened Common
  import opened CheckpointPaths
  import opened PodRestore
  import opened CriProxy
  import ArchiveNames

  /** The checkpoint listed for a container. */
  function Listed(cps: seq<ContainerCheckpoint>, name: string): Option<string> {
    if cps == [] then None
    else
      var n := |cps| - 1;
      if cps[n].container == name then Some(cps[n].path) else Listed(cps[..n], name)
  }

  lemma {:induction false} ListedExact(cps: seq<ContainerCheckpoint>, name: string, path: string)
    requires Keyed(cps)
    ensures Listed(cps, name) == Some(path) <==> ContainerCheckpoint(name, path) in cps
  {
    if cps != [] {
      var n := |cps| - 1;
      ListedExact(cps[..n], name, path);
      assert cps == cps[..n] + [cps[n]];
    }
  }

  lemma {:induction false} ListedAmong(cps: seq<ContainerCheckpoint>, name: string) returns (i: nat)
    requires Listed(cps, name).Some?
    ensures i < |cps| && cps[i] == ContainerCheckpoint(name, Listed(cps, name).value)
  {
    i := |cps| - 1;
    if cps[i].container != name { i := ListedAmong(cps[..i], name); }
  }

  lemma {:induction false} NotListed(cps: seq<ContainerCheckpoint>, name: string)
    requires forall i :: 0 <= i < |cps| ==> cps[i].container != name
    ensures Listed(cps, name).None?
  {
    if cps != [] { NotListed(cps[..|cps| - 1], name); }
  }

  lemma PrefixCancels(x: string, y: string)
    requires ANNOTATION_PREFIX + x == ANNOTATION_PREFIX + y
    ensures x == y
  {
    var n := |ANNOTATION_PREFIX|;
    assert (ANNOTATION_PREFIX + x)[n..] == x && (ANNOTATION_PREFIX + y)[n..] == y;
  }

  /** The path annotations of a rendered Pod are those of the checkpoints, over the template's. */
  lemma {:induction false} RenderedAnnotation(pod: RestorePod, cps: seq<ContainerCheckpoint>, images: BaseImages, name: string)
    requires Render(pod, cps, images).Rendered?
    ensures Lookup(Render(pod, cps, images).pod.annotations, ANNOTATION_PREFIX + name) ==
            if Listed(cps, name).Some? then Listed(cps, name) else Lookup(pod.annotations, ANNOTATION_PREFIX + name)
  {
    if cps != [] {
      var n := |cps| - 1;
      RenderedAnnotation(pod, cps[..n], images, name);
      if ANNOTATION_PREFIX + name == ANNOTATION_PREFIX + cps[n].container { PrefixCancels(name, cps[n].container); }
    }
  }

  /** Every other annotation is the template's. */
  lemma {:induction false} OtherAnnotation(pod: RestorePod, cps: seq<ContainerCheckpoint>, images: BaseImages, key: string)
    requires Render(pod, cps, images).Rendered? && !Reserved(key)
    ensures Lookup(Render(pod, cps, images).pod.annotations, key) == Lookup(pod.annotations, key)
  {
    if cps != [] {
      var n := |cps| - 1;
      OtherAnnotation(pod, cps[..n], images, key);
      assert ANNOTATION_PREFIX <= ANNOTATION_PREFIX + cps[n].container;
    }
  }

  /** On a Pod rendered from an accepted spec the path annotation of a container is exactly its
      listed checkpoint; with one checkpoint per container, that is the one the spec pairs it with. */
  lemma ReservedAnnotationsExact(spec: RestoreSpec, opts: Options, images: BaseImages, name: string)
    requires Accepted(spec, opts) && Render(Template(spec), spec.checkpoints, images).Rendered?
    ensures Lookup(Render(Template(spec), spec.checkpoints, images).pod.annotations, ANNOTATION_PREFIX + name)
            == Listed(spec.checkpoints, name)
    ensures Keyed(spec.checkpoints) ==> forall path ::
              Lookup(Render(Template(spec), spec.checkpoints, images).pod.annotations, ANNOTATION_PREFIX + name) == Some(path)
              <==> ContainerCheckpoint(name, path) in spec.checkpoints
  {
    if Keyed(spec.checkpoints) {
      forall path ensures Listed(spec.checkpoints, name) == Some(path) <==> ContainerCheckpoint(name, path) in spec.checkpoints {
        ListedExact(spec.checkpoints, name, path);
      }
    }
    RenderedAnnotation(Template(spec), spec.checkpoints, images, name);
    AcceptedExact(spec, opts);
    assert Reserved(ANNOTATION_PREFIX + name);
  }

  /** The sandbox the kubelet builds from a Pod. */
  function SandboxOf(pod: RestorePod): Sandbox { Sandbox(pod.annotations, pod.ns) }

  lemma {:induction false} RenderKeepsIdentity(pod: RestorePod, cps: seq<ContainerCheckpoint>, images: BaseImages)
    requires Render(pod, cps, images).Rendered?
    ensures var r := Render(pod, cps, images).pod;
            r.ns == pod.ns && r.name == pod.name && r.node == pod.node && r.controller == pod.controller && r.labels == pod.labels
  {
    if cps != [] { RenderKeepsIdentity(pod, cps[..|cps| - 1], images); }
  }

  /** Controller and proxy agree, with the same checkpoint directory: the proxy leaves unlisted
      containers alone, never finds a listed path invalid, and restores it as soon as the archive's
      own namespace is proven. */
  lemma ControllerAndProxyAgree(
    spec: RestoreSpec, opts: Options, proxy: Options, images: BaseImages, recorded: ArchiveNamespaces, name: string)
    requires Accepted(spec, opts) && Render(Template(spec), spec.checkpoints, images).Rendered?
    requires proxy.checkpointDir == opts.checkpointDir
    ensures var v := Judge(name, SandboxOf(Render(Template(spec), spec.checkpoints, images).pod), proxy, recorded);
            match Listed(spec.checkpoints, name)
            case None => v == PassOn
            case Some(path) =>
              v == if proxy.allowCrossNamespace || NamespaceProven(spec.ns, path, recorded) then Restore(path)
                   else Refuse(PermissionDenied)
  {
    ReservedAnnotationsExact(spec, opts, images, name);
    RenderKeepsIdentity(Template(spec), spec.checkpoints, images);
    if Listed(spec.checkpoints, name).Some? {
      var i := ListedAmong(spec.checkpoints, name);
      AcceptedExact(spec, opts);
      assert Sound(spec, opts, spec.checkpoints[i]);
    }
  }

  /** Last gate: for any request at all, the proxy restores exactly the annotated archives that lie
      directly in the checkpoint directory and are proven to come from the sandbox's namespace. */
  lemma ProxyRestoresExactly(name: string, sandbox: Sandbox, opts: Options, recorded: ArchiveNamespaces, path: string)
    ensures var d := Clean(if opts.checkpointDir == "" then DEFAULT_CHECKPOINT_DIR else opts.checkpointDir);
            Judge(name, sandbox, opts, recorded) == Restore(path) <==>
            && Lookup(sandbox.annotations, ANNOTATION_PREFIX + name) == Some(path)
            && (opts.allowCrossNamespace || NamespaceProven(sandbox.ns, path, recorded))
            && IsAbs(d) && exists base :: '/' !in base && IsTar(base) && path == Entry(d, base)
  {
    AcceptedPathExact(path, opts.checkpointDir);
    assert ValidateCheckpointPathInDir("", opts.checkpointDir).Some?;
  }

  // ---------- images ----------

  /** The image a container ends up with: its own, or its archive's base image. */
  function FinalImage(containers: seq<Container>, cps: seq<ContainerCheckpoint>, images: BaseImages, i: nat): string
    requires i < |containers|
  {
    var c := containers[i];
    if c.image == "" && ContainerIndex(containers, c.name) == i && Listed(cps, c.name).Some? &&
       images(Listed(cps, c.name).value).Some?
    then images(Listed(cps, c.name).value).value
    else c.image
  }

  predicate SameNames(a: seq<Container>, b: seq<Container>) {
    |a| == |b| && forall i :: 0 <= i < |a| ==> a[i].name == b[i].name
  }

  lemma {:induction false} IndexByName(a: seq<Container>, b: seq<Container>, name: string)
    requires SameNames(a, b)
    ensures ContainerIndex(a, name) == ContainerIndex(b, name)
  {
    if a != [] {
      var n := |a| - 1;
      assert SameNames(a[..n], b[..n]);
      IndexByName(a[..n], b[..n], name);
    }
  }

  lemma {:induction false} RenderKeepsNames(pod: RestorePod, cps: seq<ContainerCheckpoint>, images: BaseImages)
    requires Render(pod, cps, images).Rendered?
    ensures SameNames(Render(pod, cps, images).pod.containers, pod.containers)
  {
    if cps != [] { RenderKeepsNames(pod, cps[..|cps| - 1], images); }
  }

  /** With one checkpoint per container, the last one's container was not listed before. */
  lemma LastIsNew(cps: seq<ContainerCheckpoint>)
    requires Keyed(cps) && cps != []
    ensures Keyed(cps[..|cps| - 1]) && Listed(cps[..|cps| - 1], cps[|cps| - 1].container).None?
  {
    NotListed(cps[..|cps| - 1], cps[|cps| - 1].container);
  }

  /** Rendering fills in exactly the images the template leaves empty, from the right archive. */
  lemma {:induction false} RenderedImage(pod: RestorePod, cps: seq<ContainerCheckpoint>, images: BaseImages, i: nat)
    requires Keyed(cps) && Render(pod, cps, images).Rendered? && i < |pod.containers|
    ensures SameNames(Render(pod, cps, images).pod.containers, pod.containers)
    ensures Render(pod, cps, images).pod.containers[i].image == FinalImage(pod.containers, cps, images, i)
  {
    RenderKeepsNames(pod, cps, images);
    if cps != [] {
      var n := |cps| - 1;
      LastIsNew(cps);
      RenderedImage(pod, cps[..n], images, i);
      IndexByName(Render(pod, cps[..n], images).pod.containers, pod.containers, cps[n].container);
    }
  }

  /** A checkpoint can be rendered when its container exists and has an image to use. */
  predicate Renderable(containers: seq<Container>, cp: ContainerCheckpoint, images: BaseImages) {
    var i := ContainerIndex(containers, cp.container);
    i < |containers| && (containers[i].image != "" || images(cp.path).Some?)
  }

  /** What is rendered so far does not change whether the next checkpoint is renderable. */
  lemma RenderableStays(pod: RestorePod, cps: seq<ContainerCheckpoint>, images: BaseImages, cp: ContainerCheckpoint)
    requires Keyed(cps) && Render(pod, cps, images).Rendered? && Listed(cps, cp.container).None?
    ensures Renderable(Render(pod, cps, images).pod.containers, cp, images) <==> Renderable(pod.containers, cp, images)
  {
    RenderKeepsNames(pod, cps, images);
    IndexByName(Render(pod, cps, images).pod.containers, pod.containers, cp.container);
    var i := ContainerIndex(pod.containers, cp.container);
    if i < |pod.containers| { RenderedImage(pod, cps, images, i); }
  }

  lemma StampSucceeds(pod: RestorePod, cp: ContainerCheckpoint, images: BaseImages)
    ensures Stamp(pod, cp, images).Rendered? <==> Renderable(pod.containers, cp, images)
  {
  }

  lemma {:induction false} RenderedAllRenderable(pod: RestorePod, cps: seq<ContainerCheckpoint>, images: BaseImages, k: nat)
    requires Keyed(cps) && Render(pod, cps, images).Rendered? && k < |cps|
    ensures Renderable(pod.containers, cps[k], images)
  {
    var n := |cps| - 1;
    LastIsNew(cps);
    if k < n {
      RenderedAllRenderable(pod, cps[..n], images, k);
    } else {
      RenderableStays(pod, cps[..n], images, cps[n]);
      StampSucceeds(Render(pod, cps[..n], images).pod, cps[n], images);
    }
  }

  lemma {:induction false} FailureHasCause(pod: RestorePod, cps: seq<ContainerCheckpoint>, images: BaseImages) returns (k: nat)
    requires Keyed(cps) && Render(pod, cps, images).RenderFailed?
    ensures FirstUnrenderable(pod.containers, cps, images, k) && Render(pod, cps, images).container == cps[k].container
  {
    var n := |cps| - 1;
    LastIsNew(cps);
    k := n;
    if Render(pod, cps[..n], images).RenderFailed? {
      k := FailureHasCause(pod, cps[..n], images);
    } else {
      forall j | 0 <= j < n ensures Renderable(pod.containers, cps[j], images) {
        RenderedAllRenderable(pod, cps[..n], images, j);
      }
      RenderableStays(pod, cps[..n], images, cps[n]);
      StampSucceeds(Render(pod, cps[..n], images).pod, cps[n], images);
    }
  }

  predicate FirstUnrenderable(containers: seq<Container>, cps: seq<ContainerCheckpoint>, images: BaseImages, k: nat) {
    && k < |cps| && !Renderable(containers, cps[k], images)
    && forall j :: 0 <= j < k ==> Renderable(containers, cps[j], images)
  }

  /** Rendering succeeds exactly when every checkpoint is renderable in the template, and otherwise
      blames the container of the first that is not. */
  lemma RenderSucceedsExactly(pod: RestorePod, cps: seq<ContainerCheckpoint>, images: BaseImages)
    requires Keyed(cps)
    ensures Render(pod, cps, images).Rendered? <==>
            forall k :: 0 <= k < |cps| ==> Renderable(pod.containers, cps[k], images)
    ensures Render(pod, cps, images).RenderFailed? ==>
              exists k: nat :: FirstUnrenderable(pod.containers, cps, images, k) && Render(pod, cps, images).container == cps[k].container
  {
    if Render(pod, cps, images).Rendered? {
      forall k | 0 <= k < |cps| ensures Renderable(pod.containers, cps[k], images) {
        RenderedAllRenderable(pod, cps, images, k);
      }
    } else {
      var k := FailureHasCause(pod, cps, images);
    }
  }

  // ---------- the file-name gate and the archive gate ----------

  lemma BaseOfEntry(d: string, base: string)
    requires '/' !in base && base != ""
    ensures Base(Entry(d, base)) == base
  {
    UpToSlashOf(d, base);
    UpToSlashOf("", base);
    assert "" + "/" + base == "/" + base;
    var p := Entry(d, base);
    assert p[|p| - 1] == base[|base| - 1] && base[|base| - 1] in base;
    assert TrimSlashes(p) == p;
  }

  /** The file-name gate never stands in the way of the archive gate: an archive the kubelet named
      after the namespace it records passes the controller wherever it passes the proxy. */
  lemma ProvenPassesHint(d: string, pod: string, recordedNs: string, container: string, ts: string,
                         ns: string, recorded: ArchiveNamespaces)
    requires ArchiveNames.IsName(pod) && ArchiveNames.IsName(recordedNs) && ArchiveNames.IsName(container)
    requires ArchiveNames.IsTimestamp(ts)
    requires var path := Entry(d, ArchiveNames.KubeletName(pod, recordedNs, container, ts));
             recorded(path) == Some(recordedNs) && NamespaceProven(ns, path, recorded)
    ensures ArchiveNames.NamespaceHintOk(Base(Entry(d, ArchiveNames.KubeletName(pod, recordedNs, container, ts))), ns)
  {
    ArchiveNames.HintAcceptsOwnAndDashNeighbours(pod, ns, container, ts, ns);
    ArchiveNames.KubeletNameChars(pod, ns, container, ts);
    BaseOfEntry(d, ArchiveNames.KubeletName(pod, ns, container, ts));
  }

  // ---------- the whole verdict of the proxy ----------

  /** Exactly when the proxy refuses a request for its path, refuses it for its namespace, or passes it
      on unchanged. */
  lemma ProxyVerdicts(name: string, sandbox: Sandbox, opts: Options, recorded: ArchiveNamespaces)
    ensures var v, asked := Judge(name, sandbox, opts, recorded), Lookup(sandbox.annotations, ANNOTATION_PREFIX + name);
            var d := Clean(if opts.checkpointDir == "" then DEFAULT_CHECKPOINT_DIR else opts.checkpointDir);
            && (v == PassOn <==> asked.None? || asked == Some(""))
            && (v == Refuse(InvalidArgument) <==> asked.Some? && asked != Some("") && !ConfinedTo(d, asked.value))
            && (v == Refuse(PermissionDenied) <==>
                  && asked.Some? && ConfinedTo(d, asked.value) && !opts.allowCrossNamespace
                  && (sandbox.ns == "" || recorded(asked.value).None? || recorded(asked.value).value != sandbox.ns))
  {
    var asked := Lookup(sandbox.annotations, ANNOTATION_PREFIX + name);
    if asked.Some? { AcceptedPathExact(asked.value, opts.checkpointDir); }
    AcceptedPathExact("", opts.checkpointDir);
  }

  /** A .tar directly inside the absolute directory d. */
  ghost predicate ConfinedTo(d: string, path: string) {
    IsAbs(d) && exists base :: '/' !in base && IsTar(base) && path == Entry(d, base)
  }

  // ---------- the Pod as a whole ----------

  /** Every rendered Pod is the restore's own: its namespace, name and target node, controlled by it and
      labelled with its name; every other label is the template's. */
  lemma RenderedIdentity(spec: RestoreSpec, images: BaseImages, key: string)
    requires Render(Template(spec), spec.checkpoints, images).Rendered?
    ensures var pod := Render(Template(spec), spec.checkpoints, images).pod;
            && pod.ns == spec.ns && pod.name == spec.name && pod.node == spec.targetNode && pod.controller == spec.uid
            && Lookup(pod.labels, "restore.criu.org/pod-restore") == Some(spec.name)
            && (key != "restore.criu.org/pod-restore" ==> Lookup(pod.labels, key) == Lookup(spec.labels, key))
  {
    RenderKeepsIdentity(Template(spec), spec.checkpoints, images);
  }
}
