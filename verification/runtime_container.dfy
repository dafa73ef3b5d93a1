/** The runtime's container manager: the same compute-service calls as the container manager,
 *  but `Create` only creates and starts the container, every mapped directory is writable,
 *  `Stats` also counts the container's processes, and deleting never touches a state
 *  directory. */
module RuntimeContainer {
  import opened Wrappers
  import opened Errors
  import Words
  import Oci
  import HcsClient
  import ContainerSetup
  import ContainerStats
  import ContainerManager

  type Host = ContainerManager.Host
  type Teardown = ContainerManager.Teardown
  type MappedDir = ContainerSetup.MappedDir

  // ---------------------------------------------------------------------------------------
  // Mounts
  // ---------------------------------------------------------------------------------------

  /** The first mount from `from` on whose source cannot be looked at; `|mounts|` if none. */
  function FirstUnstattable(mounts: seq<Oci.Mount>, look: ContainerSetup.Lookups, from: nat): (k: nat)
    requires from <= |mounts|
    ensures from <= k <= |mounts|
    ensures forall i :: from <= i < k ==> look.isDir(mounts[i].source).Success?
    ensures k < |mounts| ==> look.isDir(mounts[k].source).Failure?
    decreases |mounts| - from
  {
    if from == |mounts| || look.isDir(mounts[from].source).Failure? then from
    else FirstUnstattable(mounts, look, from + 1)
  }

  /** The mapped-directory loop with the option parsing switched off: a source that cannot be
   *  looked at ends it, a non-directory is skipped, and every directory is mapped writable. */
  function WritableMounts(mounts: seq<Oci.Mount>, look: ContainerSetup.Lookups, from: nat): (r: Result<seq<MappedDir>, Error>)
    requires from <= |mounts|
    ensures r.Failure? <==> FirstUnstattable(mounts, look, from) < |mounts|
    ensures r.Failure? ==> r.error == look.isDir(mounts[FirstUnstattable(mounts, look, from)].source).error
    ensures r.Success? ==>
              var dirs := ContainerSetup.Directories(mounts, look, from);
              |r.value| == |dirs|
              && forall j :: 0 <= j < |dirs| ==>
                   r.value[j] == ContainerSetup.MappedDir(dirs[j].source, ContainerSetup.DestToWindowsPath(dirs[j].destination), false)
    decreases |mounts| - from
  {
    if from == |mounts| then Success([])
    else
      var m := mounts[from];
      var info := look.isDir(m.source);
      if info.Failure? then Failure(info.error)
      else
        var rest := WritableMounts(mounts, look, from + 1);
        if rest.Failure? then rest
        else if !info.value then rest
        else Success([ContainerSetup.MappedDir(m.source, ContainerSetup.DestToWindowsPath(m.destination), false)] + rest.value)
  }

  /** Whenever the container manager's loop maps the mounts, this one maps the same
   *  directories to the same places, only writable; and whenever this one fails, so does that
   *  one, which looks at the same sources in the same order. */
  lemma {:induction false} WritableMountsIgnoreOptions(id: string, mounts: seq<Oci.Mount>, look: ContainerSetup.Lookups, from: nat)
    requires from <= |mounts|
    ensures var strict := ContainerSetup.MapMounts(id, mounts, look, from);
            var writable := WritableMounts(mounts, look, from);
            strict.Success? ==>
              writable.Success? && |writable.value| == |strict.value|
              && forall j :: 0 <= j < |strict.value| ==> writable.value[j] == strict.value[j].(readOnly := false)
    ensures WritableMounts(mounts, look, from).Failure? ==> ContainerSetup.MapMounts(id, mounts, look, from).Failure?
    decreases |mounts| - from
  {
    if from < |mounts| {
      WritableMountsIgnoreOptions(id, mounts, look, from + 1);
      var m := mounts[from];
      var info := look.isDir(m.source);
      var strict := ContainerSetup.MapMounts(id, mounts, look, from);
      var writable := WritableMounts(mounts, look, from);
      if info.Success? && info.value && ContainerSetup.ParseMountOptions(id, m.options).Success? && strict.Success? {
        var strictRest := ContainerSetup.MapMounts(id, mounts, look, from + 1);
        var writableRest := WritableMounts(mounts, look, from + 1);
        assert strict.value == [ContainerSetup.MappedDir(m.source, ContainerSetup.DestToWindowsPath(m.destination),
                                                         ContainerSetup.ParseMountOptions(id, m.options).value)] + strictRest.value;
        assert writable.value == [ContainerSetup.MappedDir(m.source, ContainerSetup.DestToWindowsPath(m.destination), false)]
                                 + writableRest.value;
      }
    }
  }

  // ---------------------------------------------------------------------------------------
  // Create
  // ---------------------------------------------------------------------------------------

  /** The configuration the runtime's `Create` builds: the container manager's, with the
   *  mounts mapped writable and their options not looked at. */
  function WritableConfig(spec: Oci.Spec, look: ContainerSetup.Lookups): (r: Result<ContainerSetup.ContainerConfig, Error>)
    ensures ContainerSetup.SpecLayers(spec.layerFolders, look).Failure? ==> r == Failure(ContainerSetup.SpecLayers(spec.layerFolders, look).error)
    ensures ContainerSetup.SpecLayers(spec.layerFolders, look).Success? && WritableMounts(spec.mounts, look, 0).Failure? ==>
              r == Failure(WritableMounts(spec.mounts, look, 0).error)
    ensures r.Success? ==>
              ContainerSetup.SpecLayers(spec.layerFolders, look) == Success(r.value.layers)
              && WritableMounts(spec.mounts, look, 0) == Success(r.value.mappedDirectories)
              && forall j :: 0 <= j < |r.value.mappedDirectories| ==> !r.value.mappedDirectories[j].readOnly
  {
    var layers := ContainerSetup.SpecLayers(spec.layerFolders, look);
    if layers.Failure? then Failure(layers.error)
    else
      var dirs := WritableMounts(spec.mounts, look, 0);
      if dirs.Failure? then Failure(dirs.error)
      else
        var base := ContainerSetup.ContainerConfig(
          spec.hostname, spec.rootPath, layers.value, dirs.value,
          if spec.memoryLimit.Some? then ContainerSetup.MemoryInMB(spec.memoryLimit.value) else 0,
          if spec.cpuShares.Some? then spec.cpuShares.value else 0,
          "", "", []);
        if spec.sharedContainer == "" then Success(base)
        else
          var ep := look.endpointByName(spec.sharedContainer);
          if ep.Failure? then Failure(ep.error)
          else Success(base.(networkSharedContainerName := spec.sharedContainer, owner := spec.sharedContainer,
                             endpointList := [ep.value]))
  }

  /** The two configurations agree on everything but the mapped directories' read-only flag:
   *  whenever the container manager's succeeds, this one does too, with every mapped
   *  directory made writable. */
  lemma WritableConfigAgrees(id: string, spec: Oci.Spec, look: ContainerSetup.Lookups)
    ensures var strict := ContainerSetup.BuildConfig(id, spec, look);
            var writable := WritableConfig(spec, look);
            strict.Success? ==>
              writable.Success?
              && writable.value == strict.value.(mappedDirectories := writable.value.mappedDirectories)
              && |writable.value.mappedDirectories| == |strict.value.mappedDirectories|
              && forall j :: 0 <= j < |strict.value.mappedDirectories| ==>
                   writable.value.mappedDirectories[j] == strict.value.mappedDirectories[j].(readOnly := false)
  {
    WritableMountsIgnoreOptions(id, spec.mounts, look, 0);
  }

  /** What `Create` returned, the configuration it passed to the service if it got that far,
   *  and the teardown it ran when the started container would not start. */
  datatype Created = Created(result: Outcome<Error>, config: Option<ContainerSetup.ContainerConfig>, cleanup: Option<Teardown>)

  /** `Create`: refuse an id the service already knows, build the configuration, create the
   *  container and start it; a start failure tears the container down, and the start error is
   *  returned whatever the teardown gave. */
  function Create(id: string, spec: Oci.Spec, host: Host): (r: Created)
    ensures var props := HcsClient.GetContainerProperties(id, host.machine.getContainers);
            props.Success? ==> r == Created(Fail(ContainerAlreadyExists(id)), None, None)
    ensures var props := HcsClient.GetContainerProperties(id, host.machine.getContainers);
            props.Failure? && !props.error.ContainerNotFound? ==> r == Created(Fail(props.error), None, None)
    ensures r.config.Some? ==>
              HcsClient.GetContainerProperties(id, host.machine.getContainers).Failure?
              && HcsClient.GetContainerProperties(id, host.machine.getContainers).error.ContainerNotFound?
              && WritableConfig(spec, host.look) == Success(r.config.value)
    ensures r.result.Pass? <==> r.config.Some? && host.create(r.config.value).Success? && host.create(r.config.value).value.start.Pass?
    ensures r.cleanup.Some? <==> r.config.Some? && host.create(r.config.value).Success? && r.result.Fail?
    ensures r.cleanup.Some? ==>
              var h := host.create(r.config.value).value;
              r.result == h.start && r.cleanup.value == DeleteContainer(id, h, host)
  {
    var props := HcsClient.GetContainerProperties(id, host.machine.getContainers);
    if props.Success? then Created(Fail(ContainerAlreadyExists(id)), None, None)
    else if !props.error.ContainerNotFound? then Created(Fail(props.error), None, None)
    else
      var config := WritableConfig(spec, host.look);
      if config.Failure? then Created(Fail(config.error), None, None)
      else
        var made := host.create(config.value);
        if made.Failure? then Created(Fail(made.error), Some(config.value), None)
        else if made.value.start.Fail? then Created(made.value.start, Some(config.value), Some(DeleteContainer(id, made.value, host)))
        else Created(Pass, Some(config.value), None)
  }

  // ---------------------------------------------------------------------------------------
  // Delete
  // ---------------------------------------------------------------------------------------

  /** `deleteContainer`: a stopped container's handle is closed, a running one is shut down or
   *  else terminated; nothing is removed from disk. */
  function DeleteContainer(id: string, h: ContainerManager.Handle, host: Host): (r: Teardown)
    ensures var props := HcsClient.GetContainerProperties(id, host.machine.getContainers);
            props.Failure? ==> r == ContainerManager.Teardown(Fail(props.error), [])
    ensures var props := HcsClient.GetContainerProperties(id, host.machine.getContainers);
            props.Success? ==> r == ContainerManager.Stop(props.value.stopped, h, host.isPending)
    ensures forall i :: 0 <= i < |r.steps| ==> !r.steps[i].RemoveStateDir?
  {
    var props := HcsClient.GetContainerProperties(id, host.machine.getContainers);
    if props.Failure? then ContainerManager.Teardown(Fail(props.error), [])
    else ContainerManager.Stop(props.value.stopped, h, host.isPending)
  }

  /** Where the two managers' teardowns differ: the runtime's stops the container exactly as
   *  the container manager's does, and only the latter goes on to remove a state directory. */
  lemma DeleteContainerKeepsState(id: string, h: ContainerManager.Handle, host: Host)
    ensures var runtime := DeleteContainer(id, h, host);
            var manager := ContainerManager.DeleteContainer(id, id, h, host);
            (manager.result.Pass? ==> runtime.result.Pass? && manager.steps == runtime.steps + [ContainerManager.RemoveStateDir(id)])
            && (runtime.result.Fail? ==> manager == runtime)
  {
  }

  /** `Delete`: open the container and tear it down; with `force`, a container the service
   *  does not know is already deleted. */
  function Delete(id: string, force: bool, host: Host): (r: Teardown)
    ensures host.machine.open(id).Fail? ==>
              r == ContainerManager.Teardown(if force && host.machine.open(id).error.ContainerNotFound? then Pass else host.machine.open(id), [])
    ensures host.machine.open(id).Pass? ==> r == DeleteContainer(id, host.handles(id), host)
  {
    var h := ContainerManager.OpenWith(id, host.machine.open, host);
    if h.Failure? then
      ContainerManager.Teardown(if force && h.error.ContainerNotFound? then Pass else Fail(h.error), [])
    else DeleteContainer(id, h.value, host)
  }

  // ---------------------------------------------------------------------------------------
  // Stats
  // ---------------------------------------------------------------------------------------

  /** `Statistics`: the container manager's figures and the current number of processes. */
  datatype Statistics = Statistics(figures: ContainerStats.Stats, pidsCurrent: nat)

  const NO_STATISTICS: Statistics := Statistics(ContainerStats.NO_STATS, 0)

  /** `Stats`: open the container, read its statistics and its process list; any failure gives
   *  the zero value and that error. */
  function Stats(id: string, host: Host): (r: (Statistics, Outcome<Error>))
    ensures r.1.Pass? <==>
              host.machine.open(id).Pass? && host.handles(id).statistics.Success? && host.machine.processList(id).Success?
    ensures r.1.Fail? ==> r.0 == NO_STATISTICS
    ensures host.machine.open(id).Pass? && host.handles(id).statistics.Failure? ==> r.1 == Fail(host.handles(id).statistics.error)
    ensures host.machine.open(id).Pass? && host.handles(id).statistics.Success? && host.machine.processList(id).Failure? ==>
              r.1 == Fail(host.machine.processList(id).error)
    ensures r.1.Pass? ==>
              r.0.figures == ContainerStats.Collect(host.handles(id).statistics).0
              && (|host.machine.processList(id).value| < Words.TWO_64 ==> r.0.pidsCurrent == |host.machine.processList(id).value|)
  {
    var h := ContainerManager.OpenWith(id, host.machine.open, host);
    if h.Failure? then (NO_STATISTICS, Fail(h.error))
    else if h.value.statistics.Failure? then (NO_STATISTICS, Fail(h.value.statistics.error))
    else
      var listed := host.machine.processList(id);
      if listed.Failure? then (NO_STATISTICS, Fail(listed.error))
      else (Statistics(ContainerStats.Collect(h.value.statistics).0, Words.Uint64(|listed.value|)), Pass)
  }
}
