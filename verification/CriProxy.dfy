/** The node-side proxy: how it treats one CreateContainer request on its way to the runtime. */
module CriProxy {
  import opened Common
  import opened CheckpointPaths
  import opened PodRestore

  /** Annotations and namespace of the pod sandbox; an absent part reads as empty. */
  datatype Sandbox = Sandbox(annotations: map<string, string>, ns: string)

  /** A container config; its metadata and its image may be absent. */
  datatype ContainerConfig = ContainerConfig(name: Option<string>, image: Option<string>)

  datatype Code = InvalidArgument | PermissionDenied

  datatype Verdict = PassOn | Restore(path: string) | Refuse(code: Code)

  /** Namespace recorded inside each archive; None when it cannot be read. */
  type ArchiveNamespaces = string -> Option<string>

  function Lookup(m: map<string, string>, key: string): Option<string> {
    if key in m then Some(m[key]) else None
  }

  predicate NamespaceProven(ns: string, path: string, recorded: ArchiveNamespaces) {
    ns != "" && recorded(path) == Some(ns)
  }

  /** What the proxy must answer for a container of that name. */
  function Judge(name: string, sandbox: Sandbox, opts: Options, recorded: ArchiveNamespaces): Verdict {
    match Lookup(sandbox.annotations, ANNOTATION_PREFIX + name)
    case None => PassOn
    case Some(path) =>
      if path == "" then PassOn
      else if ValidateCheckpointPathInDir(path, opts.checkpointDir).Some? then Refuse(InvalidArgument)
      else if opts.allowCrossNamespace || NamespaceProven(sandbox.ns, path, recorded) then Restore(path)
      else Refuse(PermissionDenied)
  }

  class CreateContainerRequest {
    var config: Option<ContainerConfig>
    const sandbox: Sandbox

    constructor (config: Option<ContainerConfig>, sandbox: Sandbox)
      ensures this.config == config && this.sandbox == sandbox
    {
      this.config := config;
      this.sandbox := sandbox;
    }

    method Rewrite(opts: Options, recorded: ArchiveNamespaces) returns (v: Verdict)
      modifies this`config
      ensures config.None? || config.value.name.None? ==> v == PassOn
      ensures old(config).Some? && old(config).value.name.Some? ==>
                v == Judge(old(config).value.name.value, sandbox, opts, recorded)
      ensures !v.Restore? ==> config == old(config)
      ensures v.Restore? ==> old(config).Some? && config == Some(old(config).value.(image := Some(v.path)))
    {
      if config.None? || config.value.name.None? { return PassOn; }
      var key := ANNOTATION_PREFIX + config.value.name.value;
      if key !in sandbox.annotations { return PassOn; }
      var path := sandbox.annotations[key];
      if path == "" { return PassOn; }
      var pathError := ValidateCheckpointPathInDir(path, opts.checkpointDir);
      if pathError.Some? { return Refuse(InvalidArgument); }
      if !opts.allowCrossNamespace {
        if sandbox.ns == "" { return Refuse(PermissionDenied); }
        var archiveNs := recorded(path);
        if archiveNs.None? { return Refuse(PermissionDenied); }
        if archiveNs.value != sandbox.ns { return Refuse(PermissionDenied); }
      }
      config := Some(config.value.(image := Some(path)));
      v := Restore(path);
    }
  }
}
