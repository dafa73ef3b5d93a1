/** The container-side state manager: a `state.json` per container holding the bundle and the
 *  user program's pid and start time, and the status it derives from those and the live system. */
module ContainerState {
  import opened Wrappers
  import opened Errors
  import Words
  import HcsClient
  import Oci
  import opened ProcessList

  /** `ContainerState` as stored in `state.json`. */
  datatype State = State(bundle: string, userProgramPid: int, userProgramStartTime: Filetime, userProgramExecFailed: bool)

  /** What the state directory holds: whether it exists, what reading and decoding `state.json`
   *  gives, and how creating the directory and writing the file go. */
  datatype Disk = Disk(
    dirExists: bool,
    stored: Result<State, Error>,
    mkdir: Outcome<Error>,
    write: State -> Outcome<Error>)

  /** The live system: the compute service's view of containers and the process start times. */
  datatype Machine = Machine(
    getContainers: HcsClient.Query -> Result<seq<HcsClient.ContainerProperties>, Error>,
    open: string -> Outcome<Error>,
    processList: string -> Result<seq<Item>, Error>,
    startTime: nat -> Result<Filetime, Error>,
    now: int)

  /** A writer's outcome and the state it handed to `writeState`, if it got that far. */
  datatype Saved = Saved(result: Outcome<Error>, wrote: Option<State>)

  const NOT_INITIALIZED: Error := Msg("manager has not been initialized")

  /** `stateValid`: no pid and no start time, or both. */
  predicate Valid(s: State)
  {
    (s.userProgramPid == 0 && s.userProgramStartTime == ZERO_TIME)
    || (s.userProgramPid != 0 && s.userProgramStartTime != ZERO_TIME)
  }

  /** `Initialize`: create the directory, then write a state holding only the bundle. */
  function Initialize(bundlePath: string, d: Disk): (r: Saved)
    ensures d.mkdir.Fail? ==> r == Saved(d.mkdir, None)
    ensures d.mkdir.Pass? ==> r.wrote.Some? && r.result == d.write(r.wrote.value)
    ensures r.wrote.Some? ==> r.wrote.value.bundle == bundlePath && Valid(r.wrote.value)
                              && r.wrote.value.userProgramPid == 0 && !r.wrote.value.userProgramExecFailed
  {
    if d.mkdir.Fail? then Saved(d.mkdir, None)
    else
      var s := State(bundlePath, 0, ZERO_TIME, false);
      Saved(d.write(s), Some(s))
  }

  /** `SetRunning`: record the pid and the start time the system reports for `uint32(pid)`; no
   *  write happens when the start time cannot be read. */
  function SetRunning(pid: int, d: Disk, m: Machine): (r: Saved)
    ensures !d.dirExists ==> r == Saved(Fail(NOT_INITIALIZED), None)
    ensures d.dirExists && d.stored.Failure? ==> r == Saved(Fail(d.stored.error), None)
    ensures d.dirExists && d.stored.Success? && m.startTime(Words.Uint32(pid)).Failure? ==>
              r == Saved(Fail(m.startTime(Words.Uint32(pid)).error), None)
    ensures r.wrote.Some? ==>
              d.dirExists && d.stored.Success? && m.startTime(Words.Uint32(pid)).Success?
              && r.wrote.value == d.stored.value.(userProgramPid := pid, userProgramStartTime := m.startTime(Words.Uint32(pid)).value)
              && r.result == d.write(r.wrote.value)
  {
    if !d.dirExists then Saved(Fail(NOT_INITIALIZED), None)
    else if d.stored.Failure? then Saved(Fail(d.stored.error), None)
    else
      var started := m.startTime(Words.Uint32(pid));
      if started.Failure? then Saved(Fail(started.error), None)
      else
        var s := d.stored.value.(userProgramPid := pid, userProgramStartTime := started.value);
        Saved(d.write(s), Some(s))
  }

  /** `SetExecFailed`: the stored state with only the exec-failed flag raised. */
  function SetExecFailed(d: Disk): (r: Saved)
    ensures !d.dirExists ==> r == Saved(Fail(NOT_INITIALIZED), None)
    ensures d.dirExists && d.stored.Failure? ==> r == Saved(Fail(d.stored.error), None)
    ensures r.wrote.Some? ==>
              d.dirExists && d.stored.Success? && r.result == d.write(r.wrote.value)
              && r.wrote.value.userProgramExecFailed
              && r.wrote.value.bundle == d.stored.value.bundle
              && r.wrote.value.userProgramPid == d.stored.value.userProgramPid
              && r.wrote.value.userProgramStartTime == d.stored.value.userProgramStartTime
  {
    if !d.dirExists then Saved(Fail(NOT_INITIALIZED), None)
    else if d.stored.Failure? then Saved(Fail(d.stored.error), None)
    else
      var s := d.stored.value.(userProgramExecFailed := true);
      Saved(d.write(s), Some(s))
  }

  /** The first listed process from `from` on that carries the program's pid and whose start
   *  time either cannot be read or equals the recorded one; `|pl|` if none does. */
  function FirstDecisive(pl: seq<Item>, pid: nat, recorded: Filetime, m: Machine, from: nat): (k: nat)
    requires from <= |pl|
    ensures from <= k <= |pl|
    ensures forall i :: from <= i < k ==> !Decides(pl[i], pid, recorded, m)
    ensures k < |pl| ==> Decides(pl[k], pid, recorded, m)
    decreases |pl| - from
  {
    if from == |pl| || Decides(pl[from], pid, recorded, m) then from
    else FirstDecisive(pl, pid, recorded, m, from + 1)
  }

  predicate Decides(v: Item, pid: nat, recorded: Filetime, m: Machine)
  {
    v.processId == pid && (m.startTime(v.processId).Failure? || m.startTime(v.processId) == Success(recorded))
  }

  /** `userProgramStatus`: an invalid state panics; a failed exec is "exited"; no pid is
   *  "created"; otherwise the program is "running" exactly when a process with its pid still
   *  has its start time. */
  function UserProgramStatus(id: string, s: State, m: Machine): (r: Completion<Result<string, Error>>)
    ensures r.Panicked? <==> !Valid(s)
    ensures Valid(s) && s.userProgramExecFailed ==> r == Returned(Success("exited"))
    ensures Valid(s) && !s.userProgramExecFailed && s.userProgramPid == 0 ==> r == Returned(Success(Oci.CREATED))
    ensures Valid(s) && !s.userProgramExecFailed && s.userProgramPid != 0 && m.open(id).Fail? ==>
              r == Returned(Failure(m.open(id).error))
    ensures Valid(s) && !s.userProgramExecFailed && s.userProgramPid != 0 && m.open(id).Pass? && m.processList(id).Success? ==>
              var pl := m.processList(id).value;
              (r == Returned(Success(Oci.RUNNING)) <==>
                 exists k :: 0 <= k < |pl| && pl[k].processId == Words.Uint32(s.userProgramPid)
                             && m.startTime(pl[k].processId) == Success(s.userProgramStartTime)
                             && forall i :: 0 <= i < k ==> !Decides(pl[i], Words.Uint32(s.userProgramPid), s.userProgramStartTime, m))
  {
    if !Valid(s) then Panicked
    else if s.userProgramExecFailed then Returned(Success("exited"))
    else if s.userProgramPid == 0 && s.userProgramStartTime == ZERO_TIME then Returned(Success(Oci.CREATED))
    else if m.open(id).Fail? then Returned(Failure(m.open(id).error))
    else if m.processList(id).Failure? then Returned(Failure(m.processList(id).error))
    else
      var pl := m.processList(id).value;
      var pid := Words.Uint32(s.userProgramPid);
      var k := FirstDecisive(pl, pid, s.userProgramStartTime, m, 0);
      if k == |pl| then Returned(Success("exited"))
      else if m.startTime(pl[k].processId).Failure? then Returned(Failure(m.startTime(pl[k].processId).error))
      else Returned(Success(Oci.RUNNING))
  }

  /** `Get`: the OCI state of an initialized container. A failed property query, or a status that
   *  cannot be worked out, panics. */
  function Get(id: string, d: Disk, m: Machine): (r: Completion<Result<Oci.State, Error>>)
    ensures !d.dirExists ==> r == Returned(Failure(NOT_INITIALIZED))
    ensures d.dirExists && HcsClient.GetContainerProperties(id, m.getContainers).Failure? ==> r.Panicked?
    ensures d.dirExists && HcsClient.GetContainerProperties(id, m.getContainers).Success? && d.stored.Failure? ==>
              r == Returned(Failure(d.stored.error))
    ensures r.Returned? && r.value.Success? ==>
              d.dirExists && d.stored.Success?
              && r.value.value.id == id && r.value.value.bundle == d.stored.value.bundle
              && (r.value.value.status == Oci.STOPPED <==> HcsClient.GetContainerProperties(id, m.getContainers).value.stopped)
              && r.value.value.pid == ContainerPid(m.open(id), m.processList(id), m.now).0
    ensures d.dirExists && HcsClient.GetContainerProperties(id, m.getContainers).Success?
              && HcsClient.GetContainerProperties(id, m.getContainers).value.stopped
              && d.stored.Success? && ContainerPid(m.open(id), m.processList(id), m.now).1.Pass? ==>
              r.Returned? && r.value.Success? && r.value.value.status == Oci.STOPPED
  {
    if !d.dirExists then Returned(Failure(NOT_INITIALIZED))
    else
      var cp := HcsClient.GetContainerProperties(id, m.getContainers);
      if cp.Failure? then Panicked
      else if d.stored.Failure? then Returned(Failure(d.stored.error))
      else
        var status := if cp.value.stopped then Returned(Success(Oci.STOPPED)) else UserProgramStatus(id, d.stored.value, m);
        if status.Panicked? || status.value.Failure? then Panicked
        else
          var pid := ContainerPid(m.open(id), m.processList(id), m.now);
          if pid.1.Fail? then Returned(Failure(pid.1.error))
          else Returned(Success(Oci.State(id, status.value.value, d.stored.value.bundle, pid.0)))
  }

  /** The status never reads "stopped" for a running container: the user program's own status
   *  words are "exited", "created" and "running". */
  lemma UserProgramNeverStopped(id: string, s: State, m: Machine)
    ensures UserProgramStatus(id, s, m) != Returned(Success(Oci.STOPPED))
  {
  }

  /** Every state the writers hand to `writeState` is valid or marked as a failed exec, given a
   *  valid state on disk and a recorded pid and start time that are both non-zero. */
  lemma WritersKeepStatusReadable(bundlePath: string, pid: int, d: Disk, m: Machine)
    requires d.stored.Success? ==> Valid(d.stored.value) || d.stored.value.userProgramExecFailed
    requires pid != 0 && m.startTime(Words.Uint32(pid)) != Success(ZERO_TIME)
    ensures var w := Initialize(bundlePath, d).wrote; w.Some? ==> Valid(w.value)
    ensures var w := SetRunning(pid, d, m).wrote; w.Some? ==> Valid(w.value) || w.value.userProgramExecFailed
    ensures var w := SetExecFailed(d).wrote; w.Some? ==> w.value.userProgramExecFailed
  {
  }
}
