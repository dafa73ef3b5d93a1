/** The container manager's `State` and `Start`: the OCI state built from the compute service's
 *  view and the stored user-program record, and starting the user program with the record
 *  updated to match. Two generations of the manager live side by side: one reads and writes
 *  `state.json` itself, the other goes through the state manager. */
module ContainerStatus {
  import opened Wrappers
  import opened Errors
  import opened Text
  import Words
  import Oci
  import HcsClient
  import ContainerState
  import opened ProcessList
  import opened ContainerManager

  type State = ContainerState.State

  /** The status the manager that reads `state.json` itself derives from a record: a failed exec
   *  is "exited", an invalid record is an error, no pid is "created", and otherwise the program
   *  is "running" exactly when a process with its pid still has its start time. */
  function UserProgramStatus(id: string, s: State, host: Host): (r: Result<string, Error>)
    ensures s.userProgramExecFailed ==> r == Success("exited")
    ensures !s.userProgramExecFailed && !ContainerState.Valid(s) ==>
              r == Failure(Msg("invalid state: user PID " + IntDecimal(s.userProgramPid)
                               + ", user start time " + FiletimeText(s.userProgramStartTime)))
    ensures r.Success? ==> r.value in {"exited", Oci.CREATED, Oci.RUNNING}
  {
    if s.userProgramExecFailed then Success("exited")
    else if !ContainerState.Valid(s) then
      Failure(Msg("invalid state: user PID " + IntDecimal(s.userProgramPid) + ", user start time " + FiletimeText(s.userProgramStartTime)))
    else if s.userProgramPid == 0 && s.userProgramStartTime == ZERO_TIME then Success(Oci.CREATED)
    else if host.machine.open(id).Fail? then Failure(host.machine.open(id).error)
    else if host.machine.processList(id).Failure? then Failure(host.machine.processList(id).error)
    else
      var pl := host.machine.processList(id).value;
      var k := ContainerState.FirstDecisive(pl, Words.Uint32(s.userProgramPid), s.userProgramStartTime, host.machine, 0);
      if k == |pl| then Success("exited")
      else if host.machine.startTime(pl[k].processId).Failure? then Failure(host.machine.startTime(pl[k].processId).error)
      else Success(Oci.RUNNING)
  }

  /** The two generations agree on every valid record. On an invalid one the state manager
   *  panics, where this reader reports "exited" for a failed exec and an error otherwise. */
  lemma StatusReadersAgree(id: string, s: State, host: Host)
    ensures ContainerState.Valid(s) ==>
              ContainerState.UserProgramStatus(id, s, host.machine) == Returned(UserProgramStatus(id, s, host))
    ensures !ContainerState.Valid(s) ==>
              ContainerState.UserProgramStatus(id, s, host.machine).Panicked?
              && (s.userProgramExecFailed <==> UserProgramStatus(id, s, host).Success?)
  {
    if !ContainerState.Valid(s) && !s.userProgramExecFailed {
      var text := Message(UserProgramStatus(id, s, host).error);
      assert text[0] == 'i';
    }
  }

  /** `State`, reading `state.json` itself: "stopped" for a stopped container, otherwise the
   *  program's status; the pid is the container's. */
  function StateOf(id: string, host: Host): (r: Result<Oci.State, Error>)
    ensures HcsClient.GetContainerProperties(id, host.machine.getContainers).Failure? ==>
              r == Failure(HcsClient.GetContainerProperties(id, host.machine.getContainers).error)
    ensures HcsClient.GetContainerProperties(id, host.machine.getContainers).Success? && host.disk.stored.Failure? ==>
              r == Failure(host.disk.stored.error)
    ensures r.Success? ==>
              var cp := HcsClient.GetContainerProperties(id, host.machine.getContainers);
              cp.Success? && host.disk.stored.Success?
              && r.value.id == id && r.value.bundle == host.disk.stored.value.bundle
              && PidOf(id, host) == (r.value.pid, Pass)
              && (r.value.status == Oci.STOPPED <==> cp.value.stopped)
              && (!cp.value.stopped ==> Success(r.value.status) == UserProgramStatus(id, host.disk.stored.value, host))
  {
    var cp := HcsClient.GetContainerProperties(id, host.machine.getContainers);
    if cp.Failure? then Failure(cp.error)
    else if host.disk.stored.Failure? then Failure(host.disk.stored.error)
    else
      var status := if cp.value.stopped then Success(Oci.STOPPED) else UserProgramStatus(id, host.disk.stored.value, host);
      if status.Failure? then Failure(status.error)
      else
        var pid := PidOf(id, host);
        if pid.1.Fail? then Failure(pid.1.error)
        else Success(Oci.State(id, status.value, host.disk.stored.value.bundle, pid.0))
  }

  /** `State` through the state manager: its status and bundle, and the container's pid looked
   *  up once more, a failure of which reads "container not found". */
  function ManagedState(id: string, host: Host): (r: Completion<Result<Oci.State, Error>>)
    ensures ContainerState.Get(id, host.disk, host.machine).Panicked? <==> r.Panicked?
    ensures ContainerState.Get(id, host.disk, host.machine).Returned? && ContainerState.Get(id, host.disk, host.machine).value.Failure? ==>
              r == ContainerState.Get(id, host.disk, host.machine)
    ensures r.Returned? && r.value.Success? ==>
              var got := ContainerState.Get(id, host.disk, host.machine).value;
              got.Success? && r.value.value == got.value.(pid := r.value.value.pid)
              && host.reopen(id).Pass? && r.value.value.pid >= 0
    ensures ContainerState.Get(id, host.disk, host.machine).Returned? && ContainerState.Get(id, host.disk, host.machine).value.Success?
              && host.reopen(id).Fail? ==>
              r == Returned(Failure(Msg("container not found: " + id)))
  {
    var got := ContainerState.Get(id, host.disk, host.machine);
    if got.Panicked? then Panicked
    else if got.value.Failure? then Returned(Failure(got.value.error))
    else
      var pid := ContainerPid(host.reopen(id), host.machine.processList(id), host.machine.now);
      if pid.1.Fail? then Returned(Failure(Msg("container not found: " + id)))
      else Returned(Success(Oci.State(id, got.value.value.status, got.value.value.bundle, pid.0)))
  }

  /** The refusal to start a container that is not freshly created. */
  function NotCreated(status: string): Error
  {
    Msg("cannot start a container in the " + status + " state")
  }

  // ---------------------------------------------------------------------------------------
  // Start, writing state.json itself
  // ---------------------------------------------------------------------------------------

  /** What `Start` returned and the record it handed to the file, if any. */
  datatype Started = Started(result: Result<nat, Error>, wrote: Option<State>)

  /** The tail of `Start`, writing `state.json` itself: a failed exec, or a start time that
   *  cannot be read, is recorded as a failed exec (that write's own error is dropped);
   *  otherwise the pid and the start time are recorded and the write decides. */
  function RecordLaunch(bundle: string, launched: Result<nat, Error>, host: Host): (r: Started)
    ensures launched.Failure? ==> r == Started(Failure(launched.error), Some(ContainerState.State(bundle, 0, ZERO_TIME, true)))
    ensures launched.Success? && host.machine.startTime(Words.Uint32(launched.value)).Failure? ==>
              r == Started(Failure(host.machine.startTime(Words.Uint32(launched.value)).error),
                           Some(ContainerState.State(bundle, launched.value, ZERO_TIME, true)))
    ensures r.wrote.Some? && r.wrote.value.bundle == bundle
    ensures r.result.Success? ==> !r.wrote.value.userProgramExecFailed && r.wrote.value.userProgramPid == r.result.value
    ensures r.wrote.value.userProgramExecFailed <==> r.result.Failure? && !(launched.Success? && host.machine.startTime(Words.Uint32(launched.value)).Success?)
    ensures !r.wrote.value.userProgramExecFailed ==>
              launched.Success? && r.wrote.value.userProgramPid == launched.value
              && host.machine.startTime(Words.Uint32(launched.value)) == Success(r.wrote.value.userProgramStartTime)
              && r.result == (if host.disk.write(r.wrote.value).Pass? then Success(launched.value) else Failure(host.disk.write(r.wrote.value).error))
  {
    if launched.Failure? then Started(Failure(launched.error), Some(ContainerState.State(bundle, 0, ZERO_TIME, true)))
    else
      var pid := launched.value;
      var started := host.machine.startTime(Words.Uint32(pid));
      if started.Failure? then Started(Failure(started.error), Some(ContainerState.State(bundle, pid, ZERO_TIME, true)))
      else
        var s := ContainerState.State(bundle, pid, started.value, false);
        var written := host.disk.write(s);
        if written.Fail? then Started(Failure(written.error), Some(s)) else Started(Success(pid), Some(s))
  }

  /** Every record `RecordLaunch` writes is valid or marks a failed exec, when the process id is
   *  not 0 and the start time is not the zero value. */
  lemma RecordLaunchReadable(bundle: string, launched: Result<nat, Error>, host: Host)
    requires launched.Success? ==> launched.value != 0 && host.machine.startTime(Words.Uint32(launched.value)) != Success(ZERO_TIME)
    ensures var w := RecordLaunch(bundle, launched, host).wrote.value;
            ContainerState.Valid(w) || w.userProgramExecFailed
  {
  }

  /** The bundle's process run in the container: the process id or the error, or the error
   *  that kept the bundle from loading. */
  function RunBundle(id: string, bundle: string, createIOPipes: bool, host: Host): Result<Result<nat, Error>, Error>
  {
    var spec := LoadBundle(id, bundle, host.bundles);
    if spec.Failure? then Failure(spec.error) else Success(Exec(id, spec.value.process, createIOPipes, host).result)
  }

  /** What is run is the process of the bundle as loaded again, through `Exec`. */
  lemma RunBundleExecs(id: string, bundle: string, createIOPipes: bool, host: Host)
    ensures var r := RunBundle(id, bundle, createIOPipes, host);
            (r.Failure? <==> LoadBundle(id, bundle, host.bundles).Failure?)
            && (r.Failure? ==> r.error == LoadBundle(id, bundle, host.bundles).error)
            && (r.Success? ==> r.value == Exec(id, LoadBundle(id, bundle, host.bundles).value.process, createIOPipes, host).result)
  {
  }

  /** `Start`, writing `state.json` itself, given what `State` reported: only a "created"
   *  container starts; the bundle is loaded again, its process run, and the outcome recorded. */
  function StartFrom(id: string, st: Result<Oci.State, Error>, detach: bool, host: Host): (r: Started)
    ensures st.Failure? ==> r == Started(Failure(st.error), None)
    ensures st.Success? && st.value.status != Oci.CREATED ==> r == Started(Failure(NotCreated(st.value.status)), None)
    ensures st.Success? && st.value.status == Oci.CREATED && RunBundle(id, st.value.bundle, !detach, host).Failure? ==>
              r == Started(Failure(RunBundle(id, st.value.bundle, !detach, host).error), None)
    ensures r.wrote.Some? ==>
              st.Success? && st.value.status == Oci.CREATED && RunBundle(id, st.value.bundle, !detach, host).Success?
              && r == RecordLaunch(st.value.bundle, RunBundle(id, st.value.bundle, !detach, host).value, host)
    ensures r.result.Success? ==>
              r.wrote.Some? && !r.wrote.value.userProgramExecFailed && r.wrote.value.userProgramPid == r.result.value
  {
    if st.Failure? then Started(Failure(st.error), None)
    else if st.value.status != Oci.CREATED then Started(Failure(NotCreated(st.value.status)), None)
    else
      var launched := RunBundle(id, st.value.bundle, !detach, host);
      if launched.Failure? then Started(Failure(launched.error), None)
      else RecordLaunch(st.value.bundle, launched.value, host)
  }

  /** `Start`, writing `state.json` itself. */
  function Start(id: string, detach: bool, host: Host): Started
  {
    StartFrom(id, StateOf(id, host), detach, host)
  }

  // ---------------------------------------------------------------------------------------
  // Start, through the state manager
  // ---------------------------------------------------------------------------------------

  /** How far the shared first half of the state manager's `Start` got: it stopped with an
   *  outcome (after recording a failed exec, if the exec failed), or the program runs. */
  datatype Launch = Stopped(saved: ContainerState.Saved) | Running(bundle: string, pid: nat)

  /** The first half of `Start` through the state manager: read the state, refuse anything
   *  but "created", load the bundle, and run its process without pipes; a failed exec is
   *  recorded through `SetExecFailed`, whose own error wins over the exec's. */
  function LaunchManaged(id: string, host: Host): (r: Completion<Launch>)
    ensures r.Panicked? <==> ManagedState(id, host).Panicked?
    ensures ManagedState(id, host).Returned? && ManagedState(id, host).value.Failure? ==>
              r == Returned(Stopped(ContainerState.Saved(Fail(ManagedState(id, host).value.error), None)))
    ensures ManagedState(id, host).Returned? && ManagedState(id, host).value.Success?
              && ManagedState(id, host).value.value.status != Oci.CREATED ==>
              r == Returned(Stopped(ContainerState.Saved(Fail(NotCreated(ManagedState(id, host).value.value.status)), None)))
    ensures r.Returned? && r.value.Running? ==>
              var st := ManagedState(id, host).value.value;
              st.status == Oci.CREATED && r.value.bundle == st.bundle
              && LoadBundle(id, st.bundle, host.bundles).Success?
              && Exec(id, LoadBundle(id, st.bundle, host.bundles).value.process, false, host).result == Success(r.value.pid)
    ensures r.Returned? && r.value.Stopped? ==> r.value.saved.result.Fail?
    ensures r.Returned? && r.value.Stopped? && r.value.saved.wrote.Some? ==>
              r.value.saved.wrote == ContainerState.SetExecFailed(host.disk).wrote
  {
    var st := ManagedState(id, host);
    if st.Panicked? then Panicked
    else if st.value.Failure? then Returned(Stopped(ContainerState.Saved(Fail(st.value.error), None)))
    else if st.value.value.status != Oci.CREATED then
      Returned(Stopped(ContainerState.Saved(Fail(NotCreated(st.value.value.status)), None)))
    else
      var spec := LoadBundle(id, st.value.value.bundle, host.bundles);
      if spec.Failure? then Returned(Stopped(ContainerState.Saved(Fail(spec.error), None)))
      else
        var launched := Exec(id, spec.value.process, false, host);
        if launched.result.Failure? then
          var failed := ContainerState.SetExecFailed(host.disk);
          Returned(Stopped(ContainerState.Saved(if failed.result.Fail? then failed.result else Fail(launched.result.error), failed.wrote)))
        else Returned(Running(st.value.value.bundle, launched.result.value))
  }

  /** Once a created container's bundle loads and the container opens, `Start` hands the host a
   *  process configuration without I/O pipes, and the program runs exactly when the host
   *  creates that process. */
  lemma LaunchManagedWithoutPipes(id: string, host: Host)
    requires ManagedState(id, host).Returned? && ManagedState(id, host).value.Success?
    requires ManagedState(id, host).value.value.status == Oci.CREATED
    requires LoadBundle(id, ManagedState(id, host).value.value.bundle, host.bundles).Success?
    requires host.machine.open(id).Pass?
    ensures var st := ManagedState(id, host).value.value;
            var config := Exec(id, LoadBundle(id, st.bundle, host.bundles).value.process, false, host).config.value;
            var created := host.handles(id).createProcess(config);
            !config.createIOPipes
            && (created.Success? <==> LaunchManaged(id, host).Returned? && LaunchManaged(id, host).value.Running?)
            && (created.Success? ==> LaunchManaged(id, host) == Returned(Running(st.bundle, created.value)))
  {
  }

  /** The second half as written: when the start time cannot be read, the record written
   *  holds the pid with the zero start time and no failed exec. */
  function RecordStartAsWritten(bundle: string, pid: nat, started: Result<Filetime, Error>, d: ContainerState.Disk): (r: ContainerState.Saved)
    ensures started.Failure? ==> r == ContainerState.Saved(Fail(started.error), Some(ContainerState.State(bundle, pid, ZERO_TIME, false)))
    ensures started.Success? ==> r.wrote == Some(ContainerState.State(bundle, pid, started.value, false)) && r.result == d.write(r.wrote.value)
  {
    if started.Failure? then ContainerState.Saved(Fail(started.error), Some(ContainerState.State(bundle, pid, ZERO_TIME, false)))
    else
      var s := ContainerState.State(bundle, pid, started.value, false);
      ContainerState.Saved(d.write(s), Some(s))
  }

  /** The record written after a start time that cannot be read is invalid, and every later
   *  status query of the container through the state manager panics on it. */
  lemma RecordStartAsWrittenBreaksStatus(id: string, bundle: string, pid: nat, e: Error, d: ContainerState.Disk, m: ContainerState.Machine)
    requires pid != 0
    ensures var w := RecordStartAsWritten(bundle, pid, Failure(e), d).wrote;
            w.Some? && !ContainerState.Valid(w.value) && !w.value.userProgramExecFailed
            && ContainerState.UserProgramStatus(id, w.value, m).Panicked?
    ensures var w := RecordStartAsWritten(bundle, pid, Failure(e), d).wrote.value;
            var cp := HcsClient.GetContainerProperties(id, m.getContainers);
            d.dirExists && d.stored == Success(w) && cp.Success? && !cp.value.stopped ==>
              ContainerState.Get(id, d, m).Panicked?
  {
  }

  /** The second half as intended: a start time that cannot be read is recorded the way a
   *  failed exec is, through `SetExecFailed`, and its error is returned unless that write's
   *  own error wins. */
  function RecordStart(bundle: string, pid: nat, started: Result<Filetime, Error>, d: ContainerState.Disk): (r: ContainerState.Saved)
    ensures started.Failure? ==>
              r.wrote == ContainerState.SetExecFailed(d).wrote
              && r.result == (if ContainerState.SetExecFailed(d).result.Fail? then ContainerState.SetExecFailed(d).result else Fail(started.error))
    ensures started.Success? ==> r.wrote == Some(ContainerState.State(bundle, pid, started.value, false)) && r.result == d.write(r.wrote.value)
    ensures r.result.Pass? ==> started.Success?
  {
    if started.Failure? then
      var failed := ContainerState.SetExecFailed(d);
      ContainerState.Saved(if failed.result.Fail? then failed.result else Fail(started.error), failed.wrote)
    else
      var s := ContainerState.State(bundle, pid, started.value, false);
      ContainerState.Saved(d.write(s), Some(s))
  }

  /** Over a valid record, everything the intended second half writes is valid, and a start
   *  time that cannot be read leaves a record that reads as "exited". */
  lemma RecordStartKeepsStatusReadable(id: string, bundle: string, pid: nat, started: Result<Filetime, Error>,
                                       d: ContainerState.Disk, m: ContainerState.Machine)
    requires d.stored.Success? ==> ContainerState.Valid(d.stored.value)
    requires pid != 0 && started != Success(ZERO_TIME)
    ensures var w := RecordStart(bundle, pid, started, d).wrote;
            w.Some? ==> ContainerState.Valid(w.value) && !ContainerState.UserProgramStatus(id, w.value, m).Panicked?
    ensures var w := RecordStart(bundle, pid, started, d).wrote;
            started.Failure? && w.Some? ==> ContainerState.UserProgramStatus(id, w.value, m) == Returned(Success("exited"))
  {
  }

  /** `Start` through the state manager, as written. */
  function StartManagedAsWritten(id: string, host: Host): (r: Completion<ContainerState.Saved>)
    ensures r.Panicked? <==> LaunchManaged(id, host).Panicked?
    ensures LaunchManaged(id, host).Returned? && LaunchManaged(id, host).value.Stopped? ==>
              r == Returned(LaunchManaged(id, host).value.saved)
    ensures LaunchManaged(id, host).Returned? && LaunchManaged(id, host).value.Running? ==>
              var run := LaunchManaged(id, host).value;
              r == Returned(RecordStartAsWritten(run.bundle, run.pid, host.machine.startTime(Words.Uint32(run.pid)), host.disk))
  {
    var launch := LaunchManaged(id, host);
    if launch.Panicked? then Panicked
    else match launch.value
      case Stopped(saved) => Returned(saved)
      case Running(bundle, pid) => Returned(RecordStartAsWritten(bundle, pid, host.machine.startTime(Words.Uint32(pid)), host.disk))
  }

  /** `Start` through the state manager, with the start-time failure recorded as intended. */
  function StartManaged(id: string, host: Host): (r: Completion<ContainerState.Saved>)
    ensures r.Panicked? <==> LaunchManaged(id, host).Panicked?
    ensures LaunchManaged(id, host).Returned? && LaunchManaged(id, host).value.Stopped? ==>
              r == Returned(LaunchManaged(id, host).value.saved)
    ensures LaunchManaged(id, host).Returned? && LaunchManaged(id, host).value.Running? ==>
              var run := LaunchManaged(id, host).value;
              r == Returned(RecordStart(run.bundle, run.pid, host.machine.startTime(Words.Uint32(run.pid)), host.disk))
    ensures r.Returned? && r.value.result.Pass? ==>
              LaunchManaged(id, host).value.Running? && r.value.wrote.Some? && !r.value.wrote.value.userProgramExecFailed
              && r.value.wrote.value.userProgramPid == LaunchManaged(id, host).value.pid
  {
    var launch := LaunchManaged(id, host);
    if launch.Panicked? then Panicked
    else match launch.value
      case Stopped(saved) => Returned(saved)
      case Running(bundle, pid) => Returned(RecordStart(bundle, pid, host.machine.startTime(Words.Uint32(pid)), host.disk))
  }

  /** The two versions differ only when the start time cannot be read. */
  lemma StartVersionsDifferOnlyOnStartTime(id: string, host: Host)
    requires LaunchManaged(id, host).Returned?
    ensures LaunchManaged(id, host).value.Stopped? ==> StartManagedAsWritten(id, host) == StartManaged(id, host)
    ensures LaunchManaged(id, host).value.Running? && host.machine.startTime(Words.Uint32(LaunchManaged(id, host).value.pid)).Success? ==>
              StartManagedAsWritten(id, host) == StartManaged(id, host)
  {
  }
}
