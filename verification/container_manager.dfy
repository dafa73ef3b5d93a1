/** The container manager's lifecycle calls against the compute service: loading a bundle,
 *  creating a container (and tearing it down again when a later step fails), deleting a
 *  container with its sidecars, running a process in it, and reading its statistics. */
module ContainerManager {
  import opened Wrappers
  import opened Errors
  import opened Text
  import WinPath
  import Oci
  import HcsClient
  import CmdLine
  import BundleConfig
  import ContainerSetup
  import ContainerState
  import ContainerStats
  import opened ProcessList

  /** `hcsshim.ProcessConfig` as `Exec` fills it; the three pipe flags are one. */
  datatype ProcessConfig = ProcessConfig(
    commandLine: string,
    createIOPipes: bool,
    workingDirectory: string,
    user: string,
    environment: map<string, string>)

  /** A container handle from `OpenContainer` or `CreateContainer`: how each call on it goes.
   *  A failed `CreateProcess` gives the text the cleaned error prints. */
  datatype Handle = Handle(
    start: Outcome<Error>,
    close: Outcome<Error>,
    shutdown: Outcome<Error>,
    terminate: Outcome<Error>,
    waitAfterShutdown: Outcome<Error>,
    waitAfterTerminate: Outcome<Error>,
    statistics: Result<ContainerStats.Raw, Error>,
    createProcess: ProcessConfig -> Result<nat, string>)

  /** Where bundles come from: the working directory, whether a directory exists and what its
   *  config.json reads as, and the schema checks and version parser the validator applies. */
  datatype Bundles = Bundles(
    cwd: Result<string, Error>,
    present: string -> bool,
    config: string -> BundleConfig.FileRead<Oci.Spec>,
    checks: Oci.Spec -> seq<string>,
    parse: string -> Result<nat, string>)

  /** Everything the manager talks to. `machine` answers the first `OpenContainer` of an id and
   *  the process queries; `reopen` answers a second `OpenContainer` of the same id. */
  datatype Host = Host(
    machine: ContainerState.Machine,
    reopen: string -> Outcome<Error>,
    handles: string -> Handle,
    create: ContainerSetup.ContainerConfig -> Result<Handle, Error>,
    isPending: Error -> bool,
    look: ContainerSetup.Lookups,
    bundles: Bundles,
    mount: (int, string) -> Outcome<Error>,
    unmount: int -> Outcome<Error>,
    removeAll: string -> Outcome<Error>,
    disk: ContainerState.Disk)

  /** `containerPid` of an id, from the first opening of it. */
  function PidOf(id: string, host: Host): (int, Outcome<Error>)
  {
    ContainerPid(host.machine.open(id), host.machine.processList(id), host.machine.now)
  }

  /** `OpenContainer`, answered by `open`. */
  function OpenWith(id: string, open: string -> Outcome<Error>, host: Host): (r: Result<Handle, Error>)
    ensures r.Success? <==> open(id).Pass?
    ensures r.Failure? ==> r.error == open(id).error
  {
    if open(id).Fail? then Failure(open(id).error) else Success(host.handles(id))
  }

  // ---------------------------------------------------------------------------------------
  // Loading a bundle
  // ---------------------------------------------------------------------------------------

  /** The directory `loadBundle` reads: the working directory when no path is given, cleaned. */
  function BundleDir(bundlePath: string, b: Bundles): (r: Result<string, Error>)
    ensures r.Failure? <==> bundlePath == "" && b.cwd.Failure?
    ensures r.Failure? ==> r.error == b.cwd.error
    ensures r.Success? ==> r.value == WinPath.Clean(if bundlePath == "" then b.cwd.value else bundlePath)
  {
    if bundlePath != "" then Success(WinPath.Clean(bundlePath))
    else if b.cwd.Failure? then Failure(b.cwd.error)
    else Success(WinPath.Clean(b.cwd.value))
  }

  /** What `config.ValidateBundle` gives for a directory. */
  function ReadBundle(dir: string, b: Bundles): Result<Oci.Spec, ConfigError>
  {
    BundleConfig.ValidateBundle(dir, b.present(dir), b.config(dir), b.checks, b.parse)
  }

  /** `loadBundle`: validate the bundle, then its process with no process file, then insist that
   *  the directory is named after the container. */
  function LoadBundle(id: string, bundlePath: string, b: Bundles): (r: Result<Oci.Spec, Error>)
    ensures BundleDir(bundlePath, b).Failure? ==> r == Failure(b.cwd.error)
    ensures BundleDir(bundlePath, b).Success? && ReadBundle(BundleDir(bundlePath, b).value, b).Failure? ==>
              r == Failure(Config(ReadBundle(BundleDir(bundlePath, b).value, b).error))
    ensures r.Success? <==>
              BundleDir(bundlePath, b).Success? && ReadBundle(BundleDir(bundlePath, b).value, b).Success?
              && BundleConfig.ValidateProcess("", BundleConfig.Unreadable, Some(ReadBundle(BundleDir(bundlePath, b).value, b).value.process)).Success?
              && WinPath.Base(BundleDir(bundlePath, b).value) == id
    ensures r.Success? ==>
              var dir := BundleDir(bundlePath, b).value;
              b.present(dir) && b.config(dir).Read? && b.config(dir).json == Success(r.value)
              && |r.value.process.args| > 0 && forall i :: 0 <= i < |r.value.process.env| ==> '=' in r.value.process.env[i]
  {
    var dir := BundleDir(bundlePath, b);
    if dir.Failure? then Failure(dir.error)
    else
      var spec := ReadBundle(dir.value, b);
      if spec.Failure? then Failure(Config(spec.error))
      else
        var process := BundleConfig.ValidateProcess("", BundleConfig.Unreadable, Some(spec.value.process));
        if process.Failure? then Failure(Config(process.error))
        else if WinPath.Base(dir.value) != id then Failure(InvalidId(id))
        else Success(spec.value)
  }

  // ---------------------------------------------------------------------------------------
  // Stopping and removing one container
  // ---------------------------------------------------------------------------------------

  /** The calls `deleteContainer` makes on a handle and the file system, in order. */
  datatype Step = CloseHandle | Shutdown | WaitAfterShutdown | Terminate | WaitAfterTerminate | RemoveStateDir(id: string)

  datatype Teardown = Teardown(result: Outcome<Error>, steps: seq<Step>)

  /** `shutdownContainer` / `terminateContainer`: an error the service reports as pending is
   *  waited on and the wait decides; any other error stands. */
  function Settle(op: Outcome<Error>, wait: Outcome<Error>, isPending: Error -> bool): (r: Outcome<Error>)
    ensures r.Pass? <==> op.Pass? || (isPending(op.error) && wait.Pass?)
    ensures r.Fail? ==> r == (if isPending(op.error) then wait else op)
  {
    if op.Pass? then Pass
    else if isPending(op.error) then wait
    else op
  }

  /** The wait step, when the operation's error was a pending one. */
  function WaitStep(op: Outcome<Error>, isPending: Error -> bool, wait: Step): (s: seq<Step>)
    ensures s == [] || s == [wait]
    ensures s == [wait] <==> op.Fail? && isPending(op.error)
  {
    if op.Fail? && isPending(op.error) then [wait] else []
  }

  /** How the container was stopped, and the steps that took. */
  function Stop(stopped: bool, h: Handle, isPending: Error -> bool): (r: Teardown)
    ensures stopped ==> r == Teardown(h.close, [CloseHandle])
    ensures !stopped ==> |r.steps| > 0 && r.steps[0] == Shutdown && CloseHandle !in r.steps
    ensures !stopped ==> (Terminate in r.steps <==> Settle(h.shutdown, h.waitAfterShutdown, isPending).Fail?)
    ensures !stopped ==>
              (r.result.Pass? <==>
                 (Settle(h.shutdown, h.waitAfterShutdown, isPending).Pass? || Settle(h.terminate, h.waitAfterTerminate, isPending).Pass?))
    ensures !stopped && r.result.Fail? ==> r.result == Settle(h.terminate, h.waitAfterTerminate, isPending)
    ensures forall i :: 0 <= i < |r.steps| ==> !r.steps[i].RemoveStateDir?
  {
    if stopped then Teardown(h.close, [CloseHandle])
    else
      var down := Settle(h.shutdown, h.waitAfterShutdown, isPending);
      var downSteps := [Shutdown] + WaitStep(h.shutdown, isPending, WaitAfterShutdown);
      if down.Pass? then Teardown(Pass, downSteps)
      else
        Teardown(Settle(h.terminate, h.waitAfterTerminate, isPending),
                 downSteps + [Terminate] + WaitStep(h.terminate, isPending, WaitAfterTerminate))
  }

  /** `deleteContainer`: a stopped container's handle is closed, a running one is shut down or
   *  else terminated; then the manager's own state directory is removed. */
  function DeleteContainer(containerId: string, ownerId: string, h: Handle, host: Host): (r: Teardown)
    ensures var props := HcsClient.GetContainerProperties(containerId, host.machine.getContainers);
            props.Failure? ==> r == Teardown(Fail(props.error), [])
    ensures var props := HcsClient.GetContainerProperties(containerId, host.machine.getContainers);
            props.Success? ==>
              var stop := Stop(props.value.stopped, h, host.isPending);
              (r.result.Pass? <==> stop.result.Pass? && host.removeAll(ownerId).Pass?)
              && (stop.result.Fail? ==> r == stop)
              && (stop.result.Pass? ==> r == Teardown(host.removeAll(ownerId), stop.steps + [RemoveStateDir(ownerId)]))
    ensures forall i :: 0 <= i < |r.steps| && r.steps[i].RemoveStateDir? ==> r.steps[i].id == ownerId && i == |r.steps| - 1
  {
    var props := HcsClient.GetContainerProperties(containerId, host.machine.getContainers);
    if props.Failure? then Teardown(Fail(props.error), [])
    else
      var stop := Stop(props.value.stopped, h, host.isPending);
      if stop.result.Fail? then stop
      else Teardown(host.removeAll(ownerId), stop.steps + [RemoveStateDir(ownerId)])
  }

  /** Removing a sidecar removes the state directory of the container the manager was made
   *  for, never one named after the sidecar; and the service is asked to terminate only after
   *  a shutdown that did not settle. */
  lemma TeardownTargetsOwnerState(sidecar: string, ownerId: string, h: Handle, host: Host)
    requires sidecar != ownerId
    ensures RemoveStateDir(sidecar) !in DeleteContainer(sidecar, ownerId, h, host).steps
    ensures DeleteContainer(sidecar, ownerId, h, host).result.Pass? ==>
              RemoveStateDir(ownerId) in DeleteContainer(sidecar, ownerId, h, host).steps
    ensures Terminate in DeleteContainer(sidecar, ownerId, h, host).steps ==>
              Settle(h.shutdown, h.waitAfterShutdown, host.isPending).Fail?
  {
    var r := DeleteContainer(sidecar, ownerId, h, host);
    if r.result.Pass? {
      assert r.steps[|r.steps| - 1] == RemoveStateDir(ownerId);
    }
    if Terminate in r.steps {
      var props := HcsClient.GetContainerProperties(sidecar, host.machine.getContainers);
      var stop := Stop(props.value.stopped, h, host.isPending);
      assert Terminate in stop.steps || Terminate == RemoveStateDir(ownerId);
    }
  }

  // ---------------------------------------------------------------------------------------
  // Create
  // ---------------------------------------------------------------------------------------

  /** What `Create` returned, the configuration it passed to the service if it got that far,
   *  and the teardown it ran after a failure that followed the container's creation. */
  datatype Created = Created(result: Result<Oci.Spec, Error>, config: Option<ContainerSetup.ContainerConfig>, cleanup: Option<Teardown>)

  /** The steps after `CreateContainer`: start the container, find its pid, mount the volume
   *  for that pid, and write the initial state. */
  function Bringup(id: string, bundlePath: string, volumePath: string, h: Handle, host: Host): (r: Outcome<Error>)
    ensures r.Pass? <==>
              h.start.Pass? && PidOf(id, host).1.Pass? && host.mount(PidOf(id, host).0, volumePath).Pass?
              && ContainerState.Initialize(bundlePath, host.disk).result.Pass?
    ensures h.start.Fail? ==> r == h.start
    ensures h.start.Pass? && PidOf(id, host).1.Fail? ==> r == PidOf(id, host).1
  {
    if h.start.Fail? then h.start
    else
      var pid := PidOf(id, host);
      if pid.1.Fail? then pid.1
      else
        var mounted := host.mount(pid.0, volumePath);
        if mounted.Fail? then mounted
        else ContainerState.Initialize(bundlePath, host.disk).result
  }

  /** `Create`: refuse an id the service already knows, load the bundle, build the container
   *  configuration, create the container, and bring it up; a failure after the container
   *  exists tears it down again. */
  function Create(id: string, bundlePath: string, host: Host): (r: Created)
    ensures var props := HcsClient.GetContainerProperties(id, host.machine.getContainers);
            props.Success? ==> r == Created(Failure(ContainerAlreadyExists(id)), None, None)
    ensures var props := HcsClient.GetContainerProperties(id, host.machine.getContainers);
            props.Failure? && !props.error.ContainerNotFound? ==> r == Created(Failure(props.error), None, None)
    ensures r.config.Some? ==>
              HcsClient.GetContainerProperties(id, host.machine.getContainers).Failure?
              && HcsClient.GetContainerProperties(id, host.machine.getContainers).error.ContainerNotFound?
              && LoadBundle(id, bundlePath, host.bundles).Success?
              && ContainerSetup.BuildConfig(id, LoadBundle(id, bundlePath, host.bundles).value, host.look) == Success(r.config.value)
    ensures r.cleanup.Some? <==> r.config.Some? && host.create(r.config.value).Success? && r.result.Failure?
    ensures r.cleanup.Some? ==> r.cleanup.value == DeleteContainer(id, id, host.create(r.config.value).value, host)
    ensures r.result.Success? <==>
              r.config.Some? && host.create(r.config.value).Success?
              && Bringup(id, bundlePath, LoadBundle(id, bundlePath, host.bundles).value.rootPath, host.create(r.config.value).value, host).Pass?
    ensures r.result.Success? ==> r.result == LoadBundle(id, bundlePath, host.bundles)
  {
    var props := HcsClient.GetContainerProperties(id, host.machine.getContainers);
    if props.Success? then Created(Failure(ContainerAlreadyExists(id)), None, None)
    else if !props.error.ContainerNotFound? then Created(Failure(props.error), None, None)
    else
      var spec := LoadBundle(id, bundlePath, host.bundles);
      if spec.Failure? then Created(Failure(spec.error), None, None)
      else
        var config := ContainerSetup.BuildConfig(id, spec.value, host.look);
        if config.Failure? then Created(Failure(config.error), None, None)
        else
          var made := host.create(config.value);
          if made.Failure? then Created(Failure(made.error), Some(config.value), None)
          else
            var up := Bringup(id, bundlePath, spec.value.rootPath, made.value, host);
            if up.Fail? then Created(Failure(up.error), Some(config.value), Some(DeleteContainer(id, id, made.value, host)))
            else Created(spec, Some(config.value), None)
  }

  /** A successful `Create` left a state on disk that both status readers report as "created",
   *  with the bundle path exactly as the caller gave it. */
  lemma CreatedStateReadsCreated(id: string, bundlePath: string, host: Host)
    requires Create(id, bundlePath, host).result.Success?
    ensures var w := ContainerState.Initialize(bundlePath, host.disk).wrote;
            w.Some? && w.value.bundle == bundlePath
            && ContainerState.UserProgramStatus(id, w.value, host.machine) == Returned(Success(Oci.CREATED))
  {
  }

  // ---------------------------------------------------------------------------------------
  // Delete
  // ---------------------------------------------------------------------------------------

  /** The ids of the sidecar containers the query returned, in order. */
  function SidecarIds(props: seq<HcsClient.ContainerProperties>): (ids: seq<string>)
    ensures |ids| == |props| && forall i :: 0 <= i < |props| ==> ids[i] == props[i].id
  {
    seq(|props|, i requires 0 <= i < |props| => props[i].id)
  }

  /** One pass of `Delete`'s loop: the errors met removing container `x`. A pid that cannot be
   *  found ends the pass; an unmount error is recorded and the pass goes on. */
  function TeardownErrors(x: string, ownerId: string, host: Host): (errs: seq<Error>)
    ensures PidOf(x, host).1.Fail? ==> errs == [PidOf(x, host).1.error]
    ensures PidOf(x, host).1.Pass? ==>
              var unmount := host.unmount(PidOf(x, host).0);
              var h := OpenWith(x, host.reopen, host);
              errs == (if unmount.Fail? then [unmount.error] else [])
                      + (if h.Failure? then [h.error]
                         else if DeleteContainer(x, ownerId, h.value, host).result.Fail? then [DeleteContainer(x, ownerId, h.value, host).result.error]
                         else [])
    ensures |errs| <= 2
  {
    var pid := PidOf(x, host);
    if pid.1.Fail? then [pid.1.error]
    else
      var unmount := host.unmount(pid.0);
      var first := if unmount.Fail? then [unmount.error] else [];
      var h := OpenWith(x, host.reopen, host);
      if h.Failure? then first + [h.error]
      else
        var t := DeleteContainer(x, ownerId, h.value, host).result;
        first + (if t.Fail? then [t.error] else [])
  }

  /** The errors of the passes over `ids`, in order. */
  function AllErrors(ids: seq<string>, pass: string -> seq<Error>): seq<Error>
    decreases |ids|
  {
    if |ids| == 0 then [] else AllErrors(ids[..|ids| - 1], pass) + pass(ids[|ids| - 1])
  }

  /** No error was collected exactly when every pass was clean. */
  lemma {:induction false} AllErrorsEmpty(ids: seq<string>, pass: string -> seq<Error>)
    ensures AllErrors(ids, pass) == [] <==> forall i :: 0 <= i < |ids| ==> pass(ids[i]) == []
    decreases |ids|
  {
    if |ids| > 0 {
      var front := ids[..|ids| - 1];
      AllErrorsEmpty(front, pass);
      assert forall i :: 0 <= i < |front| ==> front[i] == ids[i];
    }
  }

  /** `Delete`: with `force`, a container the service does not know is already deleted. The
   *  sidecars it owns are removed first and the container itself last; every pass runs, and
   *  the collected errors are joined one per line. */
  method Delete(id: string, force: bool, host: Host) returns (r: Outcome<Error>, visited: seq<string>)
    ensures var props := HcsClient.GetContainerProperties(id, host.machine.getContainers);
            props.Failure? ==> visited == [] && r == (if force && props.error.ContainerNotFound? then Pass else Fail(props.error))
    ensures var props := HcsClient.GetContainerProperties(id, host.machine.getContainers);
            var sidecars := host.machine.getContainers(HcsClient.Query([], [id]));
            props.Success? && sidecars.Failure? ==> visited == [] && r == Fail(sidecars.error)
    ensures var props := HcsClient.GetContainerProperties(id, host.machine.getContainers);
            var sidecars := host.machine.getContainers(HcsClient.Query([], [id]));
            props.Success? && sidecars.Success? ==>
              visited == SidecarIds(sidecars.value) + [id] && r == JoinAll(AllErrors(visited, x => TeardownErrors(x, id, host)))
              && (r.Pass? <==> forall i :: 0 <= i < |visited| ==> TeardownErrors(visited[i], id, host) == [])
  {
    var props := HcsClient.GetContainerProperties(id, host.machine.getContainers);
    if props.Failure? {
      visited := [];
      if force && props.error.ContainerNotFound? {
        r := Pass;
      } else {
        r := Fail(props.error);
      }
      return;
    }
    var sidecars := host.machine.getContainers(HcsClient.Query([], [id]));
    if sidecars.Failure? {
      visited := [];
      r := Fail(sidecars.error);
      return;
    }
    var ids := SidecarIds(sidecars.value) + [id];
    var pass := x => TeardownErrors(x, id, host);
    var errs: seq<Error> := [];
    var i := 0;
    while i < |ids|
      invariant 0 <= i <= |ids|
      invariant errs == AllErrors(ids[..i], pass)
    {
      assert ids[..i + 1][..i] == ids[..i];
      errs := errs + TeardownErrors(ids[i], id, host);
      i := i + 1;
    }
    assert ids[..|ids|] == ids;
    AllErrorsEmpty(ids, pass);
    visited := ids;
    r := JoinAll(errs);
  }

  // ---------------------------------------------------------------------------------------
  // Exec
  // ---------------------------------------------------------------------------------------

  /** The configuration `Exec` handed to the service, if it got that far, and the process id or
   *  error. */
  datatype Launched = Launched(config: Option<ProcessConfig>, result: Result<nat, Error>)

  /** The command the error names: the first argument after `makeCmdLine` has rewritten it in
   *  place, or "" when there are no arguments. */
  function Command(args: seq<string>): (c: string)
    ensures |args| == 0 ==> c == ""
    ensures |args| > 0 ==> c == WinPath.Clean(args[0]) || c == WinPath.Clean(args[0]) + ".exe"
  {
    if |args| == 0 then "" else CmdLine.ProgramArgs(args)[0]
  }

  /** `Exec`: open the container and create a process with the escaped command line, the
   *  working directory and user as given, and the environment as a map. */
  function Exec(id: string, process: Oci.Process, createIOPipes: bool, host: Host): (r: Launched)
    ensures host.machine.open(id).Fail? ==> r == Launched(None, Failure(host.machine.open(id).error))
    ensures host.machine.open(id).Pass? ==>
              r.config.Some?
              && r.config.value.commandLine == Join(CmdLine.EscapeAll(CmdLine.ProgramArgs(process.args)), " ")
              && r.config.value.workingDirectory == process.cwd && r.config.value.user == process.username
              && r.config.value.createIOPipes == createIOPipes
              && r.config.value.environment.Keys == set i | 0 <= i < |process.env| :: CmdLine.EnvKey(process.env[i])
    ensures r.config.Some? ==>
              var created := host.handles(id).createProcess(r.config.value);
              (created.Success? ==> r.result == Success(created.value))
              && (created.Failure? ==> r.result == Failure(CouldNotCreateProcess(id, Command(process.args), Some(created.error))))
  {
    var h := OpenWith(id, host.machine.open, host);
    if h.Failure? then Launched(None, Failure(h.error))
    else
      CmdLine.MakeCmdLineJoins(process.args);
      var pc := ProcessConfig(CmdLine.MakeCmdLine(process.args), createIOPipes, process.cwd, process.username, CmdLine.EnvMap(process.env));
      var created := h.value.createProcess(pc);
      if created.Failure? then Launched(Some(pc), Failure(CouldNotCreateProcess(id, Command(process.args), Some(created.error))))
      else Launched(Some(pc), Success(created.value))
  }

  /** Each environment variable of the process is the value of the last entry naming it. */
  lemma ExecEnvironmentLastWins(id: string, process: Oci.Process, createIOPipes: bool, host: Host, j: nat)
    requires host.machine.open(id).Pass?
    requires j < |process.env|
    requires forall i :: j < i < |process.env| ==> CmdLine.EnvKey(process.env[i]) != CmdLine.EnvKey(process.env[j])
    ensures Exec(id, process, createIOPipes, host).config.value.environment[CmdLine.EnvKey(process.env[j])]
            == CmdLine.EnvValue(process.env[j])
  {
    CmdLine.EnvMapLastWins(process.env, j);
  }

  // ---------------------------------------------------------------------------------------
  // Stats
  // ---------------------------------------------------------------------------------------

  /** `Stats`: open the container, then collect its statistics. */
  function Stats(id: string, host: Host): (r: (ContainerStats.Stats, Outcome<Error>))
    ensures host.machine.open(id).Fail? ==> r == (ContainerStats.NO_STATS, host.machine.open(id))
    ensures host.machine.open(id).Pass? ==> r == ContainerStats.Collect(host.handles(id).statistics)
  {
    var h := OpenWith(id, host.machine.open, host);
    if h.Failure? then (ContainerStats.NO_STATS, Fail(h.error))
    else ContainerStats.Collect(h.value.statistics)
  }
}
