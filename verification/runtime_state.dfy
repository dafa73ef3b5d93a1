/** The runtime's state manager: the same `state.json` idea as the container-side one, with the
 *  program's pid and start time read through a process handle, and "stopped" for an exited
 *  program. */
module RuntimeState {
  import opened Wrappers
  import opened Errors
  import opened Text
  import Words
  import HcsClient
  import Oci
  import opened ProcessList

  /** `State` as stored in `state.json`. */
  datatype State = State(bundle: string, pid: int, startTime: Filetime, execFailed: bool)

  /** What the state directory holds and how writing to it goes. */
  datatype Disk = Disk(mkdir: Outcome<Error>, stored: Result<State, Error>, write: State -> Outcome<Error>)

  /** How `OpenProcess` fails: a Windows error number with its text, or some other error. */
  datatype ProcessError = Errno(code: nat, text: string) | Other(cause: Error)

  /** The process calls, each keyed by the pid whose handle they use. */
  datatype Syscalls = Syscalls(
    openProcess: nat -> Result<(), ProcessError>,
    exitCode: nat -> Outcome<Error>,
    startTime: nat -> Result<Filetime, Error>)

  datatype Saved = Saved(result: Outcome<Error>, wrote: Option<State>)

  /** `ERROR_INVALID_PARAMETER`, what `OpenProcess` answers for a process that no longer exists. */
  const ERROR_INVALID_PARAMETER: nat := 0x57

  function ProcessErrorText(e: ProcessError): string
  {
    match e
    case Errno(_, text) => text
    case Other(cause) => Message(cause)
  }

  /** `stateValid`: no pid and no start time, or both. */
  predicate Valid(s: State)
  {
    (s.pid == 0 && s.startTime == ZERO_TIME) || (s.pid != 0 && s.startTime != ZERO_TIME)
  }

  /** A state the status code can read: valid, or marked as a failed exec. */
  predicate Readable(s: State)
  {
    Valid(s) || s.execFailed
  }

  /** `Initialize`: create the directory, then write `{bundle, 0, zero time, false}`. */
  function Initialize(bundlePath: string, d: Disk): (r: Saved)
    ensures d.mkdir.Fail? ==> r == Saved(d.mkdir, None)
    ensures d.mkdir.Pass? ==> r.wrote.Some? && r.result == d.write(r.wrote.value)
    ensures r.wrote.Some? ==> r.wrote.value.bundle == bundlePath && r.wrote.value.pid == 0
                              && r.wrote.value.startTime == ZERO_TIME && !r.wrote.value.execFailed
  {
    if d.mkdir.Fail? then Saved(d.mkdir, None)
    else
      var s := State(bundlePath, 0, ZERO_TIME, false);
      Saved(d.write(s), Some(s))
  }

  /** `SetFailure`: the stored bundle with no pid, no start time and a failed exec. */
  function SetFailure(d: Disk): (r: Saved)
    ensures d.stored.Failure? ==> r == Saved(Fail(d.stored.error), None)
    ensures d.stored.Success? ==>
              r.wrote.Some? && r.result == d.write(r.wrote.value)
              && r.wrote.value.bundle == d.stored.value.bundle && r.wrote.value.execFailed
              && r.wrote.value.pid == 0 && r.wrote.value.startTime == ZERO_TIME
  {
    if d.stored.Failure? then Saved(Fail(d.stored.error), None)
    else
      var s := d.stored.value.(pid := 0, startTime := ZERO_TIME, execFailed := true);
      Saved(d.write(s), Some(s))
  }

  /** `SetSuccess`: record the started process's pid and its creation time. If the process cannot
   *  be opened or timed, the state is still written with the pid and a failed exec (the write's
   *  own error is dropped) and the call fails with a prefixed message. */
  function SetSuccess(pid: int, d: Disk, sc: Syscalls): (r: Saved)
    ensures d.stored.Failure? ==> r == Saved(Fail(d.stored.error), None)
    ensures r.wrote.Some? ==> r.wrote.value.pid == pid && r.wrote.value.bundle == d.stored.value.bundle
    ensures d.stored.Success? && sc.openProcess(Words.Uint32(pid)).Failure? ==>
              r.wrote == Some(d.stored.value.(pid := pid, execFailed := true))
              && r.result == Fail(Msg("OpenProcess: " + ProcessErrorText(sc.openProcess(Words.Uint32(pid)).error)))
    ensures d.stored.Success? && sc.openProcess(Words.Uint32(pid)).Success? && sc.startTime(Words.Uint32(pid)).Failure? ==>
              r.wrote == Some(d.stored.value.(pid := pid, execFailed := true))
              && r.result == Fail(Msg("GetProcessStartTime: " + Message(sc.startTime(Words.Uint32(pid)).error)))
    ensures d.stored.Success? && sc.openProcess(Words.Uint32(pid)).Success? && sc.startTime(Words.Uint32(pid)).Success? ==>
              r.wrote == Some(d.stored.value.(pid := pid, startTime := sc.startTime(Words.Uint32(pid)).value))
              && r.result == d.write(r.wrote.value)
  {
    if d.stored.Failure? then Saved(Fail(d.stored.error), None)
    else
      var s := d.stored.value.(pid := pid);
      var handle := sc.openProcess(Words.Uint32(pid));
      if handle.Failure? then
        Saved(Fail(Msg("OpenProcess: " + ProcessErrorText(handle.error))), Some(s.(execFailed := true)))
      else
        var created := sc.startTime(Words.Uint32(pid));
        if created.Failure? then
          Saved(Fail(Msg("GetProcessStartTime: " + Message(created.error))), Some(s.(execFailed := true)))
        else
          var t := s.(startTime := created.value);
          Saved(d.write(t), Some(t))
  }

  /** `userProgramStatus`: a failed exec is "stopped"; an invalid state is an error; no pid is
   *  "created"; a process that no longer exists is "stopped"; otherwise "running" exactly when
   *  the process's creation time is the recorded one. */
  function UserProgramStatus(s: State, sc: Syscalls): (r: Result<string, Error>)
    ensures s.execFailed ==> r == Success(Oci.STOPPED)
    ensures !s.execFailed && !Valid(s) ==>
              r == Failure(Msg("invalid state: PID " + IntDecimal(s.pid) + ", start time " + FiletimeText(s.startTime)))
    ensures !s.execFailed && Valid(s) && s.pid == 0 ==> r == Success(Oci.CREATED)
    ensures r == Success(Oci.CREATED) ==> !s.execFailed && s.pid == 0
    ensures !s.execFailed && Valid(s) && s.pid != 0 && sc.openProcess(Words.Uint32(s.pid)).Failure? ==>
              var e := sc.openProcess(Words.Uint32(s.pid)).error;
              r == (if e.Errno? && e.code == ERROR_INVALID_PARAMETER then Success(Oci.STOPPED)
                    else Failure(Msg("OpenProcess: " + ProcessErrorText(e))))
    ensures r == Success(Oci.RUNNING) <==>
              !s.execFailed && Valid(s) && s.pid != 0 && sc.openProcess(Words.Uint32(s.pid)).Success?
              && sc.exitCode(Words.Uint32(s.pid)).Pass? && sc.startTime(Words.Uint32(s.pid)) == Success(s.startTime)
    ensures r.Success? ==> r.value in {Oci.CREATED, Oci.RUNNING, Oci.STOPPED}
  {
    if s.execFailed then Success(Oci.STOPPED)
    else if !Valid(s) then
      Failure(Msg("invalid state: PID " + IntDecimal(s.pid) + ", start time " + FiletimeText(s.startTime)))
    else if s.pid == 0 && s.startTime == ZERO_TIME then Success(Oci.CREATED)
    else
      var pid := Words.Uint32(s.pid);
      var handle := sc.openProcess(pid);
      if handle.Failure? then
        if handle.error.Errno? && handle.error.code == ERROR_INVALID_PARAMETER then Success(Oci.STOPPED)
        else Failure(Msg("OpenProcess: " + ProcessErrorText(handle.error)))
      else if sc.exitCode(pid).Fail? then Failure(Msg("GetExitCodeProcess: " + Message(sc.exitCode(pid).error)))
      else
        var created := sc.startTime(pid);
        if created.Failure? then Failure(Msg("GetProcessStartTime: " + Message(created.error)))
        else if created.value == s.startTime then Success(Oci.RUNNING)
        else Success(Oci.STOPPED)
  }

  /** `State`: "stopped" for a stopped container, otherwise the program's status; the pid is the
   *  one recorded. */
  function GetState(containerId: string, getContainers: HcsClient.Query -> Result<seq<HcsClient.ContainerProperties>, Error>,
                    d: Disk, sc: Syscalls): (r: Result<Oci.State, Error>)
    ensures HcsClient.GetContainerProperties(containerId, getContainers).Failure? ==>
              r == Failure(HcsClient.GetContainerProperties(containerId, getContainers).error)
    ensures HcsClient.GetContainerProperties(containerId, getContainers).Success? && d.stored.Failure? ==>
              r == Failure(d.stored.error)
    ensures HcsClient.GetContainerProperties(containerId, getContainers).Success? && d.stored.Success? ==>
              var cp := HcsClient.GetContainerProperties(containerId, getContainers).value;
              (cp.stopped ==> r == Success(Oci.State(containerId, Oci.STOPPED, d.stored.value.bundle, d.stored.value.pid)))
              && (!cp.stopped && UserProgramStatus(d.stored.value, sc).Failure? ==> r == Failure(UserProgramStatus(d.stored.value, sc).error))
    ensures r.Success? ==> d.stored.Success? && r.value.id == containerId && r.value.pid == d.stored.value.pid
                           && r.value.bundle == d.stored.value.bundle
  {
    var cp := HcsClient.GetContainerProperties(containerId, getContainers);
    if cp.Failure? then Failure(cp.error)
    else if d.stored.Failure? then Failure(d.stored.error)
    else
      var status := if cp.value.stopped then Success(Oci.STOPPED) else UserProgramStatus(d.stored.value, sc);
      if status.Failure? then Failure(status.error)
      else Success(Oci.State(containerId, status.value, d.stored.value.bundle, d.stored.value.pid))
  }

  /** Every state the writers hand to `writeState` can be read back by `userProgramStatus`
   *  without the "invalid state" error, provided the started process has a pid and a non-zero
   *  creation time. */
  lemma WritersKeepStatusReadable(bundlePath: string, pid: int, d: Disk, sc: Syscalls)
    requires pid != 0 && sc.startTime(Words.Uint32(pid)) != Success(ZERO_TIME)
    ensures var w := Initialize(bundlePath, d).wrote; w.Some? ==> Readable(w.value)
    ensures var w := SetFailure(d).wrote; w.Some? ==> Readable(w.value)
    ensures var w := SetSuccess(pid, d, sc).wrote; w.Some? ==> Readable(w.value)
    ensures forall s: State :: Readable(s) ==> UserProgramStatus(s, sc).Failure? ==>
              !StartsWith(Message(UserProgramStatus(s, sc).error), "invalid state")
  {
    forall s: State | Readable(s) && UserProgramStatus(s, sc).Failure?
      ensures !StartsWith(Message(UserProgramStatus(s, sc).error), "invalid state")
    {
      var text := Message(UserProgramStatus(s, sc).error);
      assert text[0] == 'O' || text[0] == 'G';
    }
  }
}
