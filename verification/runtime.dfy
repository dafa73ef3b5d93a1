/** The runtime's commands as it sequences its collaborators: the container manager (spec,
 *  create, exec, stats, delete), the state manager (initialize, record, read, delete), the
 *  mounter, and the wrapped process (pid file, attached I/O). Each collaborator's answer is
 *  given; what is modelled is the order of the calls, which failures end a command, which are
 *  collected, and the exit code. */
module Runtime {
  import opened Wrappers
  import opened Errors
  import Oci
  import ContainerStatus

  /** The collaborator calls a command makes, in the order it makes them. */
  datatype Call =
    | LoadSpec(bundlePath: string)
    | CreateContainer
    | InitializeState(bundlePath: string)
    | DeleteContainer(force: bool)
    | ReadState
    | Unmount(recorded: int)
    | DeleteState
    | ValidateProcess
    | ExecProcess(createIOPipes: bool)
    | SetFailure
    | SetSuccess(pid: nat)
    | Mount(pid: nat, volumePath: string)
    | WritePidFile(path: string)
    | AttachIO
    | ReadStats
    | WriteOutput

  /** How each collaborator call goes. `attach` is the exit code and error of the attached
   *  process; `write` is the output writer's answer. */
  datatype Managers = Managers(
    spec: string -> Result<Oci.Spec, Error>,
    create: Oci.Spec -> Outcome<Error>,
    initialize: string -> Outcome<Error>,
    deleteContainer: bool -> Outcome<Error>,
    state: Result<Oci.State, Error>,
    deleteState: Outcome<Error>,
    validateProcess: Result<Oci.Process, Error>,
    exec: (Oci.Process, bool) -> Result<nat, Error>,
    setFailure: Outcome<Error>,
    setSuccess: nat -> Outcome<Error>,
    mount: (nat, string) -> Outcome<Error>,
    unmount: int -> Outcome<Error>,
    writePidFile: string -> Outcome<Error>,
    attach: (int, Outcome<Error>),
    stats: Outcome<Error>,
    write: Outcome<Error>)

  /** A command's error and the calls it made. */
  datatype Ran = Ran(result: Outcome<Error>, calls: seq<Call>)

  /** A command that also reports an exit code. */
  datatype Exited = Exited(code: int, result: Outcome<Error>, calls: seq<Call>)

  const EXIT_FAILURE: int := 1
  const NIL_OUTPUT: Error := Msg("provided output is nil")

  // ---------------------------------------------------------------------------------------
  // Create
  // ---------------------------------------------------------------------------------------

  /** `Create`: load the bundle's spec, create the container, initialize its state; when the
   *  state cannot be initialized the container is deleted again (that error is dropped). */
  function Create(bundlePath: string, m: Managers): (r: Ran)
    ensures m.spec(bundlePath).Failure? ==> r == Ran(Fail(m.spec(bundlePath).error), [LoadSpec(bundlePath)])
    ensures CreateContainer in r.calls <==> m.spec(bundlePath).Success?
    ensures r.result.Pass? <==>
              m.spec(bundlePath).Success? && m.create(m.spec(bundlePath).value).Pass? && m.initialize(bundlePath).Pass?
    ensures DeleteContainer(false) in r.calls <==>
              m.spec(bundlePath).Success? && m.create(m.spec(bundlePath).value).Pass? && m.initialize(bundlePath).Fail?
    ensures DeleteContainer(false) in r.calls ==> r.result == m.initialize(bundlePath)
  {
    var spec := m.spec(bundlePath);
    if spec.Failure? then Ran(Fail(spec.error), [LoadSpec(bundlePath)])
    else
      var created := m.create(spec.value);
      if created.Fail? then Ran(created, [LoadSpec(bundlePath), CreateContainer])
      else
        var init := m.initialize(bundlePath);
        if init.Fail? then Ran(init, [LoadSpec(bundlePath), CreateContainer, InitializeState(bundlePath), DeleteContainer(false)])
        else Ran(Pass, [LoadSpec(bundlePath), CreateContainer, InitializeState(bundlePath)])
  }

  // ---------------------------------------------------------------------------------------
  // Tearing a container down
  // ---------------------------------------------------------------------------------------

  /** The error collected from reading the state, if any, and the unmount it leads to. */
  function UnmountStep(m: Managers): (r: (seq<Error>, seq<Call>))
    ensures |r.1| == 2 <==> m.state.Success? && m.state.value.pid != 0
    ensures r.1 == if |r.1| == 2 then [ReadState, Unmount(m.state.value.pid)] else [ReadState]
    ensures r.0 == [] <==> m.state.Success? && (m.state.value.pid != 0 ==> m.unmount(m.state.value.pid).Pass?)
    ensures m.state.Failure? ==> r.0 == [m.state.error]
  {
    if m.state.Failure? then ([m.state.error], [ReadState])
    else if m.state.value.pid == 0 then ([], [ReadState])
    else
      var u := m.unmount(m.state.value.pid);
      (if u.Fail? then [u.error] else [], [ReadState, Unmount(m.state.value.pid)])
  }

  /** The shared teardown: read the state and unmount the volume of a recorded pid, delete the
   *  state, delete the container; every step runs and every failure is collected in order. */
  function Teardown(force: bool, m: Managers): (r: (seq<Error>, seq<Call>))
    ensures |r.1| >= 3 && r.1[0] == ReadState && r.1[|r.1| - 2..] == [DeleteState, DeleteContainer(force)]
    ensures (exists pid :: Unmount(pid) in r.1) <==> m.state.Success? && m.state.value.pid != 0
    ensures r.0 == [] <==>
              m.state.Success? && (m.state.value.pid != 0 ==> m.unmount(m.state.value.pid).Pass?)
              && m.deleteState.Pass? && m.deleteContainer(force).Pass?
    ensures m.state.Failure? ==> r.0[0] == m.state.error
  {
    var first := UnmountStep(m);
    var errs := first.0 + (if m.deleteState.Fail? then [m.deleteState.error] else [])
                + (if m.deleteContainer(force).Fail? then [m.deleteContainer(force).error] else []);
    var tail := [DeleteState, DeleteContainer(force)];
    var calls := first.1 + tail;
    assert |first.1| == 2 ==> calls[1] == Unmount(m.state.value.pid);
    assert |first.1| == 1 ==> calls == [ReadState, DeleteState, DeleteContainer(force)];
    (errs, calls)
  }

  /** `Delete`: a state the service does not know ends the command at once, as success with
   *  `force`; otherwise the teardown runs in full and its errors are joined one per line. */
  function Delete(force: bool, m: Managers): (r: Ran)
    ensures m.state.Failure? && m.state.error.ContainerNotFound? ==>
              r == Ran(if force then Pass else Fail(m.state.error), [ReadState])
    ensures !(m.state.Failure? && m.state.error.ContainerNotFound?) ==>
              DeleteState in r.calls && DeleteContainer(force) in r.calls && r.result == JoinAll(Teardown(force, m).0)
    ensures r.result.Pass? <==>
              (m.state.Failure? && m.state.error.ContainerNotFound? && force)
              || (m.state.Success? && (m.state.value.pid != 0 ==> m.unmount(m.state.value.pid).Pass?)
                  && m.deleteState.Pass? && m.deleteContainer(force).Pass?)
  {
    if m.state.Failure? && m.state.error.ContainerNotFound? then
      Ran(if force then Pass else Fail(m.state.error), [ReadState])
    else
      var t := Teardown(force, m);
      assert t.1[|t.1| - 2] == DeleteState && t.1[|t.1| - 1] == DeleteContainer(force);
      Ran(JoinAll(t.0), t.1)
  }

  // ---------------------------------------------------------------------------------------
  // Launching the bundle's process
  // ---------------------------------------------------------------------------------------

  /** A failed exec: only a process that could not be created is recorded as failed in the
   *  state, and that recording's own error is dropped. */
  function ExecFailed(e: Error): (calls: seq<Call>)
    ensures SetFailure in calls <==> e.CouldNotCreateProcess?
  {
    if e.CouldNotCreateProcess? then [SetFailure] else []
  }

  /** After a successful exec: record the process in the state, mount the volume for its pid,
   *  write the pid file; the first failure ends it. */
  function Record(pid: nat, volumePath: string, pidFile: string, m: Managers): (r: Ran)
    ensures r.result.Pass? <==>
              m.setSuccess(pid).Pass? && m.mount(pid, volumePath).Pass? && m.writePidFile(pidFile).Pass?
    ensures |r.calls| > 0 && r.calls[0] == SetSuccess(pid)
    ensures Mount(pid, volumePath) in r.calls <==> m.setSuccess(pid).Pass?
    ensures r.result.Fail? ==>
              r.result == (if m.setSuccess(pid).Fail? then m.setSuccess(pid)
                           else if m.mount(pid, volumePath).Fail? then m.mount(pid, volumePath)
                           else m.writePidFile(pidFile))
  {
    var saved := m.setSuccess(pid);
    if saved.Fail? then Ran(saved, [SetSuccess(pid)])
    else
      var mounted := m.mount(pid, volumePath);
      if mounted.Fail? then Ran(mounted, [SetSuccess(pid), Mount(pid, volumePath)])
      else Ran(m.writePidFile(pidFile), [SetSuccess(pid), Mount(pid, volumePath), WritePidFile(pidFile)])
  }

  /** What `Start` and `Run` return when the exec fails: the bare process-creation error that
   *  `errors.Cause` finds under the wrapping, or any other error as it came. */
  function ExecError(e: Error): (r: Error)
    ensures e.CouldNotCreateProcess? ==> r == CouldNotCreateProcess(e.id, e.command, None)
    ensures !e.CouldNotCreateProcess? ==> r == e
    ensures e.CouldNotCreateProcess? && e.cause.Some? ==> Message(e) == e.cause.value + ": " + Message(r)
  {
    var c := Cause(e);
    if c.CouldNotCreateProcess? then c else e
  }

  /** `Start`: only a container in the "created" state is started; its bundle's process is run
   *  without I/O pipes, then recorded, mounted and its pid written. */
  function Start(pidFile: string, m: Managers): (r: Ran)
    ensures m.state.Failure? ==> r == Ran(Fail(m.state.error), [ReadState])
    ensures m.state.Success? && m.state.value.status != Oci.CREATED ==>
              r == Ran(Fail(ContainerStatus.NotCreated(m.state.value.status)), [ReadState])
    ensures ExecProcess(false) in r.calls <==>
              m.state.Success? && m.state.value.status == Oci.CREATED && m.spec(m.state.value.bundle).Success?
    ensures ExecProcess(true) !in r.calls
    ensures SetFailure in r.calls <==>
              ExecProcess(false) in r.calls
              && m.exec(m.spec(m.state.value.bundle).value.process, false).Failure?
              && m.exec(m.spec(m.state.value.bundle).value.process, false).error.CouldNotCreateProcess?
    ensures r.result.Pass? ==>
              m.state.Success? && m.state.value.status == Oci.CREATED && m.spec(m.state.value.bundle).Success?
              && m.exec(m.spec(m.state.value.bundle).value.process, false).Success?
    ensures ExecProcess(false) in r.calls && m.exec(m.spec(m.state.value.bundle).value.process, false).Failure? ==>
              r.result == Fail(ExecError(m.exec(m.spec(m.state.value.bundle).value.process, false).error))
  {
    if m.state.Failure? then Ran(Fail(m.state.error), [ReadState])
    else if m.state.value.status != Oci.CREATED then Ran(Fail(ContainerStatus.NotCreated(m.state.value.status)), [ReadState])
    else
      var bundle := m.state.value.bundle;
      var spec := m.spec(bundle);
      if spec.Failure? then Ran(Fail(spec.error), [ReadState, LoadSpec(bundle)])
      else
        var launched := m.exec(spec.value.process, false);
        var before := [ReadState, LoadSpec(bundle), ExecProcess(false)];
        if launched.Failure? then Ran(Fail(ExecError(launched.error)), before + ExecFailed(launched.error))
        else
          var rec := Record(launched.value, spec.value.rootPath, pidFile, m);
          assert SetFailure !in rec.calls && ExecProcess(false) !in rec.calls && ExecProcess(true) !in rec.calls;
          Ran(rec.result, before + rec.calls)
  }

  /** `Exec`: validate the process configuration, run it in the container (with I/O pipes
   *  unless detached), write the pid file; attached, the process's exit code and error are
   *  the command's. Every failure before that exits 1. */
  function Exec(pidFile: string, detach: bool, m: Managers): (r: Exited)
    ensures m.validateProcess.Failure? ==> r == Exited(EXIT_FAILURE, Fail(m.validateProcess.error), [ValidateProcess])
    ensures m.validateProcess.Success? && m.exec(m.validateProcess.value, !detach).Failure? ==>
              r == Exited(EXIT_FAILURE, Fail(m.exec(m.validateProcess.value, !detach).error), [ValidateProcess, ExecProcess(!detach)])
    ensures SetFailure !in r.calls
    ensures r.result.Fail? && AttachIO !in r.calls ==> r.code == EXIT_FAILURE
    ensures AttachIO in r.calls <==>
              !detach && m.validateProcess.Success? && m.exec(m.validateProcess.value, true).Success? && m.writePidFile(pidFile).Pass?
    ensures AttachIO in r.calls ==> r.code == m.attach.0 && r.result == m.attach.1
    ensures detach && r.result.Pass? ==> r.code == 0
  {
    var process := m.validateProcess;
    if process.Failure? then Exited(EXIT_FAILURE, Fail(process.error), [ValidateProcess])
    else
      var launched := m.exec(process.value, !detach);
      if launched.Failure? then Exited(EXIT_FAILURE, Fail(launched.error), [ValidateProcess, ExecProcess(!detach)])
      else
        var written := m.writePidFile(pidFile);
        var calls := [ValidateProcess, ExecProcess(!detach), WritePidFile(pidFile)];
        if written.Fail? then Exited(EXIT_FAILURE, written, calls)
        else if !detach then Exited(m.attach.0, m.attach.1, calls + [AttachIO])
        else Exited(0, Pass, calls)
  }

  /** The launch part of `Run`, up to the pid file: the same as `Create` followed by `Start`'s
   *  exec and recording, with I/O pipes unless detached. */
  function Launch(bundlePath: string, pidFile: string, detach: bool, m: Managers): (r: Ran)
    ensures var created := Create(bundlePath, m);
            created.result.Fail? ==> r == created
    ensures r.result.Pass? ==>
              Create(bundlePath, m).result.Pass? && m.exec(m.spec(bundlePath).value.process, !detach).Success?
              && Record(m.exec(m.spec(bundlePath).value.process, !detach).value, m.spec(bundlePath).value.rootPath, pidFile, m).result.Pass?
    ensures SetFailure in r.calls <==>
              Create(bundlePath, m).result.Pass? && m.exec(m.spec(bundlePath).value.process, !detach).Failure?
              && m.exec(m.spec(bundlePath).value.process, !detach).error.CouldNotCreateProcess?
    ensures Create(bundlePath, m).result.Pass? && m.exec(m.spec(bundlePath).value.process, !detach).Failure? ==>
              r.result == Fail(ExecError(m.exec(m.spec(bundlePath).value.process, !detach).error))
  {
    var created := Create(bundlePath, m);
    if created.result.Fail? then created
    else
      var spec := m.spec(bundlePath).value;
      var launched := m.exec(spec.process, !detach);
      var before := created.calls + [ExecProcess(!detach)];
      assert SetFailure !in created.calls;
      if launched.Failure? then Ran(Fail(ExecError(launched.error)), before + ExecFailed(launched.error))
      else
        var rec := Record(launched.value, spec.rootPath, pidFile, m);
        assert SetFailure !in rec.calls;
        Ran(rec.result, before + rec.calls)
  }

  /** `Run`: create and start in one go. Detached, it exits 0 once the pid file is written.
   *  Attached, it waits for the process and then always tears the container down; the
   *  process's own error wins with its exit code, then any teardown error with exit 1, else
   *  the process's exit code. Every failure before the attach exits 1. */
  function Run(bundlePath: string, pidFile: string, detach: bool, m: Managers): (r: Exited)
    ensures Launch(bundlePath, pidFile, detach, m).result.Fail? ==>
              r == Exited(EXIT_FAILURE, Launch(bundlePath, pidFile, detach, m).result, Launch(bundlePath, pidFile, detach, m).calls)
    ensures Launch(bundlePath, pidFile, detach, m).result.Pass? && detach ==> r.code == 0 && r.result.Pass?
    ensures Launch(bundlePath, pidFile, detach, m).result.Pass? && !detach ==>
              var t := Teardown(false, m);
              r.calls == Launch(bundlePath, pidFile, detach, m).calls + [AttachIO] + t.1
              && (m.attach.1.Fail? ==> r.code == m.attach.0 && r.result == m.attach.1)
              && (m.attach.1.Pass? && t.0 != [] ==> r.code == EXIT_FAILURE && r.result == JoinAll(t.0))
              && (m.attach.1.Pass? && t.0 == [] ==> r.code == m.attach.0 && r.result.Pass?)
  {
    var launched := Launch(bundlePath, pidFile, detach, m);
    if launched.result.Fail? then Exited(EXIT_FAILURE, launched.result, launched.calls)
    else if detach then Exited(0, Pass, launched.calls)
    else
      var t := Teardown(false, m);
      var calls := launched.calls + [AttachIO] + t.1;
      if m.attach.1.Fail? then Exited(m.attach.0, m.attach.1, calls)
      else if |t.0| != 0 then Exited(EXIT_FAILURE, JoinAll(t.0), calls)
      else Exited(m.attach.0, Pass, calls)
  }

  /** An attached `Run` ends with the same teardown `Delete` without `force` performs, except
   *  that a state the service does not know is collected as an error instead of ending it. */
  lemma RunTeardownIsDelete(bundlePath: string, pidFile: string, m: Managers)
    requires Launch(bundlePath, pidFile, false, m).result.Pass?
    ensures var run := Run(bundlePath, pidFile, false, m);
            var launched := Launch(bundlePath, pidFile, false, m).calls;
            !(m.state.Failure? && m.state.error.ContainerNotFound?) ==>
              run.calls == launched + [AttachIO] + Delete(false, m).calls
              && (m.attach.1.Pass? ==> run.result == Delete(false, m).result)
    ensures var run := Run(bundlePath, pidFile, false, m);
            m.state.Failure? && m.state.error.ContainerNotFound? ==>
              Delete(false, m).calls == [ReadState] && DeleteState in run.calls && DeleteContainer(false) in run.calls
              && (m.attach.1.Pass? ==> run.code == EXIT_FAILURE && run.result.Fail?)
  {
    var t := Teardown(false, m);
    var run := Run(bundlePath, pidFile, false, m);
    if m.state.Failure? && m.state.error.ContainerNotFound? {
      assert t.1[|t.1| - 2] == DeleteState && t.1[|t.1| - 1] == DeleteContainer(false);
      assert run.calls[|run.calls| - |t.1|..] == t.1;
    }
    if !(m.state.Failure? && m.state.error.ContainerNotFound?) && m.attach.1.Pass? {
      if t.0 == [] {
        assert run.result == Pass == JoinAll(t.0);
      }
    }
  }

  /** The exit codes `Run` and `Exec` report: 0 for a detached success, the attached process's
   *  own code when it was attached and nothing else failed, and 1 for every other failure. */
  lemma ExitCodes(bundlePath: string, pidFile: string, detach: bool, m: Managers)
    ensures var run := Run(bundlePath, pidFile, detach, m);
            (run.code == 0 && detach) || run.code == EXIT_FAILURE || (AttachIO in run.calls && run.code == m.attach.0)
    ensures var run := Run(bundlePath, pidFile, detach, m);
            run.result.Fail? && run.code != EXIT_FAILURE ==> AttachIO in run.calls && run.result == m.attach.1
    ensures var exec := Exec(pidFile, detach, m);
            (exec.code == 0 && detach) || exec.code == EXIT_FAILURE || (AttachIO in exec.calls && exec.code == m.attach.0)
    ensures var exec := Exec(pidFile, detach, m);
            exec.result.Fail? && exec.code != EXIT_FAILURE ==> AttachIO in exec.calls && exec.result == m.attach.1
  {
    var launched := Launch(bundlePath, pidFile, detach, m);
    if launched.result.Pass? && !detach {
      var t := Teardown(false, m);
      assert Run(bundlePath, pidFile, detach, m).calls == launched.calls + [AttachIO] + t.1;
      assert (launched.calls + [AttachIO] + t.1)[|launched.calls|] == AttachIO;
    }
  }

  // ---------------------------------------------------------------------------------------
  // State and Events
  // ---------------------------------------------------------------------------------------

  /** `State`: with no output to write to nothing is read; otherwise the state is read and
   *  written out. */
  function State(hasOutput: bool, m: Managers): (r: Ran)
    ensures !hasOutput ==> r == Ran(Fail(NIL_OUTPUT), [])
    ensures hasOutput && m.state.Failure? ==> r == Ran(Fail(m.state.error), [ReadState])
    ensures hasOutput && m.state.Success? ==> r == Ran(m.write, [ReadState, WriteOutput])
  {
    if !hasOutput then Ran(Fail(NIL_OUTPUT), [])
    else if m.state.Failure? then Ran(Fail(m.state.error), [ReadState])
    else Ran(m.write, [ReadState, WriteOutput])
  }

  /** `Events`: the statistics are read first; only when they are to be shown does a missing
   *  output matter. */
  function Events(showStats: bool, hasOutput: bool, m: Managers): (r: Ran)
    ensures m.stats.Fail? ==> r == Ran(m.stats, [ReadStats])
    ensures m.stats.Pass? && !showStats ==> r == Ran(Pass, [ReadStats])
    ensures m.stats.Pass? && showStats && !hasOutput ==> r == Ran(Fail(NIL_OUTPUT), [ReadStats])
    ensures m.stats.Pass? && showStats && hasOutput ==> r == Ran(m.write, [ReadStats, WriteOutput])
  {
    if m.stats.Fail? then Ran(m.stats, [ReadStats])
    else if !showStats then Ran(Pass, [ReadStats])
    else if !hasOutput then Ran(Fail(NIL_OUTPUT), [ReadStats])
    else Ran(m.write, [ReadStats, WriteOutput])
  }
}
