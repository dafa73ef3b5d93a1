/** The runtime-spec records the container code reads and writes. */
module Oci {
  import opened Wrappers

  /** `specs.State` without its constant version field. */
  datatype State = State(id: string, status: string, bundle: string, pid: int)

  const CREATED: string := "created"
  const RUNNING: string := "running"
  const STOPPED: string := "stopped"

  /** The parts of `specs.Process` the container code uses. */
  datatype Process = Process(args: seq<string>, env: seq<string>, cwd: string, username: string)

  /** A `specs.Mount`. */
  datatype Mount = Mount(source: string, destination: string, options: seq<string>)

  /** The parts of `specs.Spec` the container code uses. The Windows section is taken as
   *  present; optional limits are `None` when the spec leaves them out. */
  datatype Spec = Spec(
    version: string,
    hostname: string,
    rootPath: string,
    process: Process,
    mounts: seq<Mount>,
    layerFolders: seq<string>,
    memoryLimit: Option<nat>,
    cpuShares: Option<nat>,
    sharedContainer: string)
}
