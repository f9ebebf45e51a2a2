/** Compose declarations and the mounts a container reports. */
module ComposeModel {
  import opened Prelude

  datatype MountKind = Bind | NamedVolume | AnonymousVolume | Unsupported

  datatype Severity = Info | Warning | Error | Blocked

  datatype ComposeMount = ComposeMount(
    id: string, service: string, kind: MountKind, source: Option<string>, resolvedSource: Option<string>,
    target: string)

  datatype ContainerMount = ContainerMount(kind: MountKind, source: Option<string>, target: string)
}
