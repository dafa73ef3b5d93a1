/** What `Create` derives from a bundle's spec before asking the compute service for a container:
 *  the layer list, the mapped directories with their read-only flag and Windows destination,
 *  the memory limit in megabytes and the shared-network settings. */
module ContainerSetup {
  import opened Wrappers
  import opened Errors
  import opened Text
  import Oci
  import WinPath

  /** An `hcsshim.Layer`: the GUID derived from the folder's base name, and the folder. */
  datatype Layer = Layer(id: string, path: string)

  /** An `hcsshim.MappedDir`. */
  datatype MappedDir = MappedDir(hostPath: string, containerPath: string, readOnly: bool)

  /** The parts of `hcsshim.ContainerConfig` that `Create` fills in. */
  datatype ContainerConfig = ContainerConfig(
    hostName: string,
    volumePath: string,
    layers: seq<Layer>,
    mappedDirectories: seq<MappedDir>,
    memoryMaximumInMB: nat,
    processorWeight: nat,
    networkSharedContainerName: string,
    owner: string,
    endpointList: seq<string>)

  /** The host calls the derivation makes: a layer name to its GUID, whether a mount source is
   *  a directory (or why it cannot be looked at), and an HNS endpoint's id by name. */
  datatype Lookups = Lookups(
    nameToGuid: string -> Result<string, Error>,
    isDir: string -> Result<bool, Error>,
    endpointByName: string -> Result<string, Error>)

  const READ_ONLY: string := "ro"
  const READ_WRITE: string := "rw"
  const SYSTEM_DRIVE: string := "C:"

  /** The loop of `parseMountOptions` over the first `n` options: whether "ro" and whether "rw"
   *  has been seen. */
  function ScanOptions(options: seq<string>, n: nat): (r: (bool, bool))
    requires n <= |options|
    ensures r.0 <==> READ_ONLY in options[..n]
    ensures r.1 <==> READ_WRITE in options[..n]
  {
    if n == 0 then (false, false)
    else
      var seen := ScanOptions(options, n - 1);
      assert options[..n] == options[..n - 1] + [options[n - 1]];
      var o := options[n - 1];
      if o == READ_WRITE then (seen.0, true)
      else if o == READ_ONLY then (true, seen.1)
      else seen
  }

  /** `parseMountOptions`: both "ro" and "rw" is an error; otherwise the mount is read-only
   *  unless "rw" is given. */
  function ParseMountOptions(id: string, options: seq<string>): (r: Result<bool, Error>)
    ensures r.Failure? <==> READ_ONLY in options && READ_WRITE in options
    ensures r.Failure? ==> r.error == InvalidMountOptions(id, options)
    ensures r.Success? ==> (r.value <==> READ_WRITE !in options)
  {
    var seen := ScanOptions(options, |options|);
    assert options[..|options|] == options;
    if seen.0 && seen.1 then Failure(InvalidMountOptions(id, options))
    else Success(!seen.1)
  }

  /** `destToWindowsPath` (and the config package's `toWindowsPath`): a path without a volume
   *  is put on drive C:, then the whole is cleaned. */
  function DestToWindowsPath(input: string): (r: string)
    ensures StartsWith(r, if WinPath.VolumeName(input) == "" then SYSTEM_DRIVE else WinPath.VolumeName(input))
    ensures |r| > 2
  {
    if WinPath.VolumeName(input) == "" then
      var joined := WinPath.JoinDrive(SYSTEM_DRIVE, input);
      assert WinPath.VolumeNameLen(SYSTEM_DRIVE + input) == 2;
      joined
    else WinPath.Clean(input)
  }

  /** A destination "/bar" lands at "C:\bar". */
  lemma DestOnSystemDrive()
    ensures DestToWindowsPath("/bar") == "C:\\bar"
  {
    var p := SYSTEM_DRIVE + "/bar";
    assert p == "C:/bar";
    assert WinPath.VolumeNameLen(p) == 2;
    assert p[2..] == "/bar" && p[..2] == "C:";
    SegmentsOfBar();
    ResolveBar();
    assert Join(["bar"], "\\") == "bar";
    assert WinPath.Clean(p) == "C:" + ("\\" + "bar");
  }

  lemma ResolveBar()
    ensures WinPath.Resolve(["", "bar"], true, []) == ["bar"]
  {
    var segs := ["", "bar"];
    assert segs[1..] == ["bar"] && segs[1..][1..] == [];
    assert WinPath.Resolve(segs, true, []) == WinPath.Resolve(["bar"], true, []) == WinPath.Resolve([], true, ["bar"]);
  }

  lemma SegmentsOfBar()
    ensures WinPath.Segments("/bar") == ["", "bar"]
  {
    assert WinPath.FromSlash("/bar") == "\\bar";
    IndexOfFirst("\\bar", '\\', 0);
    assert "\\bar"[1..] == "bar";
    assert '\\' !in "bar";
    assert Split("bar", '\\') == ["bar"];
  }

  /** A rooted destination is already in final form after one conversion. */
  lemma DestToWindowsPathIdempotent(input: string)
    requires WinPath.VolumeNameLen(input) < |input| && WinPath.IsSep(input[WinPath.VolumeNameLen(input)])
    ensures DestToWindowsPath(DestToWindowsPath(input)) == DestToWindowsPath(input)
  {
    var once := DestToWindowsPath(input);
    if WinPath.VolumeName(input) == "" {
      var p := SYSTEM_DRIVE + input;
      assert WinPath.VolumeNameLen(p) == 2 && WinPath.VolumeNameLen(input) == 0;
      assert p[2] == input[0];
      WinPath.CleanIdempotentRooted(p);
      assert once == WinPath.Clean(p);
    } else {
      WinPath.CleanIdempotentRooted(input);
    }
    assert StartsWith(once, once[..2]) && WinPath.VolumeNameLen(once) == 2;
  }

  // ---------------------------------------------------------------------------------------
  // Mounts
  // ---------------------------------------------------------------------------------------

  /** A mount the loop gets past: its source can be looked at, and when it is a directory its
   *  options are consistent. */
  predicate Usable(id: string, m: Oci.Mount, look: Lookups)
  {
    look.isDir(m.source).Success? && (look.isDir(m.source).value ==> ParseMountOptions(id, m.options).Success?)
  }

  /** Why a mount stops the loop. */
  function Unusable(id: string, m: Oci.Mount, look: Lookups): Error
    requires !Usable(id, m, look)
  {
    if look.isDir(m.source).Failure? then look.isDir(m.source).error
    else ParseMountOptions(id, m.options).error
  }

  /** The first mount from `from` on that stops the loop; `|mounts|` if none does. */
  function FirstUnusable(id: string, mounts: seq<Oci.Mount>, look: Lookups, from: nat): (k: nat)
    requires from <= |mounts|
    ensures from <= k <= |mounts|
    ensures forall i :: from <= i < k ==> Usable(id, mounts[i], look)
    ensures k < |mounts| ==> !Usable(id, mounts[k], look)
    decreases |mounts| - from
  {
    if from == |mounts| || !Usable(id, mounts[from], look) then from
    else FirstUnusable(id, mounts, look, from + 1)
  }

  /** The mounts from `from` on whose source is a directory, in order. */
  function Directories(mounts: seq<Oci.Mount>, look: Lookups, from: nat): (r: seq<Oci.Mount>)
    requires from <= |mounts|
    decreases |mounts| - from
  {
    if from == |mounts| then []
    else if look.isDir(mounts[from].source) == Success(true) then [mounts[from]] + Directories(mounts, look, from + 1)
    else Directories(mounts, look, from + 1)
  }

  /** The mapped-directory loop from `from` on: a source that cannot be looked at, or a
   *  directory with both "ro" and "rw", ends it with that error; a non-directory is skipped. */
  function MapMounts(id: string, mounts: seq<Oci.Mount>, look: Lookups, from: nat): (r: Result<seq<MappedDir>, Error>)
    requires from <= |mounts|
    ensures r.Failure? <==> FirstUnusable(id, mounts, look, from) < |mounts|
    ensures r.Failure? ==> r.error == Unusable(id, mounts[FirstUnusable(id, mounts, look, from)], look)
    ensures r.Success? ==>
              var dirs := Directories(mounts, look, from);
              |r.value| == |dirs|
              && forall j :: 0 <= j < |dirs| ==>
                   r.value[j] == MappedDir(dirs[j].source, DestToWindowsPath(dirs[j].destination), READ_WRITE !in dirs[j].options)
    decreases |mounts| - from
  {
    if from == |mounts| then Success([])
    else
      var m := mounts[from];
      var info := look.isDir(m.source);
      if info.Failure? then Failure(info.error)
      else if !info.value then MapMounts(id, mounts, look, from + 1)
      else
        var readOnly := ParseMountOptions(id, m.options);
        if readOnly.Failure? then Failure(readOnly.error)
        else
          var rest := MapMounts(id, mounts, look, from + 1);
          if rest.Failure? then rest
          else Success([MappedDir(m.source, DestToWindowsPath(m.destination), readOnly.value)] + rest.value)
  }

  // ---------------------------------------------------------------------------------------
  // Layers
  // ---------------------------------------------------------------------------------------

  /** The name each layer folder is looked up by: its base name. */
  function LayerNames(folders: seq<string>): (names: seq<string>)
    ensures |names| == |folders| && forall i :: 0 <= i < |folders| ==> names[i] == WinPath.Base(folders[i])
  {
    seq(|folders|, i requires 0 <= i < |folders| => WinPath.Base(folders[i]))
  }

  /** The first name from `from` on that has no GUID; `|names|` if none. */
  function FirstUnnamed(names: seq<string>, look: Lookups, from: nat): (k: nat)
    requires from <= |names|
    ensures from <= k <= |names|
    ensures forall i :: from <= i < k ==> look.nameToGuid(names[i]).Success?
    ensures k < |names| ==> look.nameToGuid(names[k]).Failure?
    decreases |names| - from
  {
    if from == |names| || look.nameToGuid(names[from]).Failure? then from
    else FirstUnnamed(names, look, from + 1)
  }

  /** The layer loop from `from` on, over the folders and their names: each folder becomes a
   *  layer identified by the GUID of its name; the first lookup error ends it. */
  function Layers(folders: seq<string>, names: seq<string>, look: Lookups, from: nat): (r: Result<seq<Layer>, Error>)
    requires |names| == |folders| && from <= |folders|
    ensures r.Failure? <==> FirstUnnamed(names, look, from) < |names|
    ensures r.Failure? ==> r.error == look.nameToGuid(names[FirstUnnamed(names, look, from)]).error
    ensures r.Success? ==>
              |r.value| == |folders| - from
              && forall i :: 0 <= i < |r.value| ==> r.value[i] == Layer(look.nameToGuid(names[from + i]).value, folders[from + i])
    decreases |folders| - from
  {
    if from == |folders| then Success([])
    else
      var guid := look.nameToGuid(names[from]);
      if guid.Failure? then Failure(guid.error)
      else
        var rest := Layers(folders, names, look, from + 1);
        if rest.Failure? then rest
        else Success([Layer(guid.value, folders[from])] + rest.value)
  }

  /** The layers of a spec, each folder looked up by its base name. */
  function SpecLayers(folders: seq<string>, look: Lookups): (r: Result<seq<Layer>, Error>)
    ensures r.Success? <==> forall i :: 0 <= i < |folders| ==> look.nameToGuid(WinPath.Base(folders[i])).Success?
    ensures r.Success? ==>
              |r.value| == |folders|
              && forall i :: 0 <= i < |folders| ==> r.value[i] == Layer(look.nameToGuid(WinPath.Base(folders[i])).value, folders[i])
    ensures r.Failure? ==>
              var k := FirstUnnamed(LayerNames(folders), look, 0);
              k < |folders| && r.error == look.nameToGuid(WinPath.Base(folders[k])).error
  {
    var names := LayerNames(folders);
    var r := Layers(folders, names, look, 0);
    assert r.Success? ==> forall i :: 0 <= i < |folders| ==> r.value[i] == Layer(look.nameToGuid(names[0 + i]).value, folders[0 + i]);
    r
  }

  // ---------------------------------------------------------------------------------------
  // The container configuration
  // ---------------------------------------------------------------------------------------

  const MEBIBYTE: nat := 1024 * 1024

  /** `memBytes / 1024 / 1024`: whole mebibytes, rounded down. */
  function MemoryInMB(bytes: nat): (mb: nat)
  {
    bytes / 1024 / 1024
  }

  /** The limit is the largest whole number of mebibytes that fits in the requested bytes. */
  lemma MemoryInMBRoundsDown(bytes: nat)
    ensures MemoryInMB(bytes) * MEBIBYTE <= bytes < (MemoryInMB(bytes) + 1) * MEBIBYTE
  {
    var k := bytes / 1024;
    assert k * 1024 <= bytes < (k + 1) * 1024;
    var mb := k / 1024;
    assert mb * 1024 <= k < (mb + 1) * 1024;
    assert mb * MEBIBYTE == (mb * 1024) * 1024;
    assert (mb + 1) * MEBIBYTE == ((mb + 1) * 1024) * 1024;
  }

  /** The configuration `Create` hands to the compute service: layers first, then mounts, then
   *  the shared network's endpoint, each stopping at its first error. */
  function BuildConfig(id: string, spec: Oci.Spec, look: Lookups): (r: Result<ContainerConfig, Error>)
    ensures SpecLayers(spec.layerFolders, look).Failure? ==> r == Failure(SpecLayers(spec.layerFolders, look).error)
    ensures SpecLayers(spec.layerFolders, look).Success? && MapMounts(id, spec.mounts, look, 0).Failure? ==>
              r == Failure(MapMounts(id, spec.mounts, look, 0).error)
    ensures r.Success? ==>
              SpecLayers(spec.layerFolders, look) == Success(r.value.layers)
              && MapMounts(id, spec.mounts, look, 0) == Success(r.value.mappedDirectories)
              && r.value.hostName == spec.hostname && r.value.volumePath == spec.rootPath
              && r.value.memoryMaximumInMB == (if spec.memoryLimit.Some? then MemoryInMB(spec.memoryLimit.value) else 0)
              && r.value.processorWeight == (if spec.cpuShares.Some? then spec.cpuShares.value else 0)
    ensures r.Success? && spec.sharedContainer == "" ==>
              r.value.networkSharedContainerName == "" && r.value.owner == "" && r.value.endpointList == []
    ensures spec.sharedContainer != "" && SpecLayers(spec.layerFolders, look).Success? && MapMounts(id, spec.mounts, look, 0).Success? ==>
              var ep := look.endpointByName(spec.sharedContainer);
              (ep.Failure? ==> r == Failure(ep.error))
              && (ep.Success? ==> r.Success? && r.value.networkSharedContainerName == spec.sharedContainer
                                  && r.value.owner == spec.sharedContainer && r.value.endpointList == [ep.value])
  {
    var layers := SpecLayers(spec.layerFolders, look);
    if layers.Failure? then Failure(layers.error)
    else
      var dirs := MapMounts(id, spec.mounts, look, 0);
      if dirs.Failure? then Failure(dirs.error)
      else
        var base := ContainerConfig(
          spec.hostname, spec.rootPath, layers.value, dirs.value,
          if spec.memoryLimit.Some? then MemoryInMB(spec.memoryLimit.value) else 0,
          if spec.cpuShares.Some? then spec.cpuShares.value else 0,
          "", "", []);
        if spec.sharedContainer == "" then Success(base)
        else
          var ep := look.endpointByName(spec.sharedContainer);
          if ep.Failure? then Failure(ep.error)
          else Success(base.(networkSharedContainerName := spec.sharedContainer, owner := spec.sharedContainer,
                             endpointList := [ep.value]))
  }
}
