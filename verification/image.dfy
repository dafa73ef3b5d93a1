/** The image manager of the image plugin: turning a rootfs into a container's writable layer
 *  with a disk limit, deleting that layer, and reporting its disk usage against the size
 *  recorded when it was made. */
module Image {
  import opened Wrappers
  import opened Errors
  import opened Text
  import Words
  import WinPath
  import opened LayerChain

  /** The layer manager as the image manager uses it. `LayerExists` is asked by `Create` and
   *  again by the `Delete` that cleans up after it, each with its own answer. */
  datatype Layers = Layers(
    exists_: Result<bool, Error>,
    existsOnDelete: Result<bool, Error>,
    create: (string, string, seq<string>) -> Result<string, Error>,
    remove: Outcome<Error>,
    mountPath: Result<string, Error>,
    homeDir: string)

  /** Everything the image manager talks to: the files, the layers, the disk limiter and the
   *  disk usage reader. */
  datatype Host = Host(
    files: Files,
    layers: Layers,
    setDiskLimit: (string, nat) -> Outcome<Error>,
    diskUsage: string -> Result<nat, Error>,
    specVersion: string)

  /** The spec `Create` returns: the spec version, the volume as the root, and the layer
   *  folders. */
  datatype ImageSpec = ImageSpec(version: string, rootPath: string, layerFolders: seq<string>)

  const IMAGE_INFO: string := "image_info"

  /** Where the size of a fresh volume is recorded. */
  function InfoPath(id: string, layers: Layers): string
  {
    WinPath.JoinPath([layers.homeDir, id, IMAGE_INFO])
  }

  // ---------------------------------------------------------------------------------------
  // Delete
  // ---------------------------------------------------------------------------------------

  /** What `Delete` returned and whether it asked for the layer's removal. */
  datatype Deleted = Deleted(result: Outcome<Error>, removed: bool)

  /** `Delete`: a layer that does not exist is skipped without error; otherwise it is removed. */
  function Delete(exists_: Result<bool, Error>, layers: Layers): (r: Deleted)
    ensures r.removed <==> exists_ == Success(true)
    ensures exists_.Failure? ==> r.result == Fail(exists_.error)
    ensures exists_ == Success(false) ==> r.result.Pass?
    ensures r.removed ==> r.result == layers.remove
  {
    if exists_.Failure? then Deleted(Fail(exists_.error), false)
    else if !exists_.value then Deleted(Pass, false)
    else Deleted(layers.remove, true)
  }

  // ---------------------------------------------------------------------------------------
  // Create
  // ---------------------------------------------------------------------------------------

  /** What `Create` returned, the layer list it asked for, and the cleanup it ran. */
  datatype Created = Created(result: Result<ImageSpec, Error>, layerFolders: Option<seq<string>>, cleanup: Option<Deleted>)

  /** The checks `Create` makes before touching any layer, in order: the rootfs exists, its
   *  layer chain can be read, the layer does not exist yet, the chain parses. The layer
   *  folders are the rootfs followed by its parents. */
  function Prepare(id: string, rootfs: string, host: Host): (r: Result<seq<string>, Error>)
    ensures CheckExists(host.files.stat(rootfs), MissingRootfs(rootfs)).Fail? ==>
              r == Failure(CheckExists(host.files.stat(rootfs), MissingRootfs(rootfs)).error)
    ensures r.Success? ==>
              host.files.stat(rootfs).Present? && host.layers.exists_ == Success(false)
              && ReadChain(rootfs, host.files).Success?
              && host.files.parseChain(ReadChain(rootfs, host.files).value).Some?
              && r.value == [rootfs] + host.files.parseChain(ReadChain(rootfs, host.files).value).value
    ensures host.files.stat(rootfs).Present? && ReadChain(rootfs, host.files).Success? && host.layers.exists_ == Success(true) ==>
              r == Failure(LayerExists(id))
    ensures host.files.stat(rootfs).Present? && ReadChain(rootfs, host.files).Failure? ==> r == Failure(MissingRootfsLayerChain(rootfs))
  {
    var present := CheckExists(host.files.stat(rootfs), MissingRootfs(rootfs));
    if present.Fail? then Failure(present.error)
    else
      var text := ReadChain(rootfs, host.files);
      if text.Failure? then Failure(text.error)
      else if host.layers.exists_.Failure? then Failure(host.layers.exists_.error)
      else if host.layers.exists_.value then Failure(LayerExists(id))
      else
        var parents := ParseChain(rootfs, text.value, host.files);
        if parents.Failure? then Failure(parents.error)
        else Success([rootfs] + parents.value)
  }

  /** The steps after the layer is created: limit its disk, measure it, record the measured
   *  size; the first failure is returned. */
  function Provision(id: string, volumePath: string, diskLimit: nat, host: Host): (r: Outcome<Error>)
    ensures r.Pass? <==>
              host.setDiskLimit(volumePath, diskLimit).Pass? && host.diskUsage(volumePath).Success?
              && host.files.writeFile(InfoPath(id, host.layers), Decimal(host.diskUsage(volumePath).value)).Pass?
    ensures host.setDiskLimit(volumePath, diskLimit).Fail? ==> r == host.setDiskLimit(volumePath, diskLimit)
  {
    var limited := host.setDiskLimit(volumePath, diskLimit);
    if limited.Fail? then limited
    else
      var size := host.diskUsage(volumePath);
      if size.Failure? then Fail(size.error)
      else host.files.writeFile(InfoPath(id, host.layers), Decimal(size.value))
  }

  /** `Create`: after the checks, create the layer on the rootfs and its parents and provision
   *  it; any failure from the layer's creation on deletes the image again (that error is
   *  dropped) and returns the failure. */
  function Create(id: string, rootfs: string, diskLimit: nat, host: Host): (r: Created)
    ensures Prepare(id, rootfs, host).Failure? ==> r == Created(Failure(Prepare(id, rootfs, host).error), None, None)
    ensures r.layerFolders.Some? <==> Prepare(id, rootfs, host).Success?
    ensures r.layerFolders.Some? ==> r.layerFolders == Some(Prepare(id, rootfs, host).value)
                                      && r.layerFolders.value[0] == rootfs
    ensures r.cleanup.Some? <==> r.layerFolders.Some? && r.result.Failure?
    ensures r.cleanup.Some? ==> r.cleanup.value == Delete(host.layers.existsOnDelete, host.layers)
    ensures r.result.Success? ==>
              var volumePath := host.layers.create(id, rootfs, r.layerFolders.value);
              volumePath.Success? && Provision(id, volumePath.value, diskLimit, host).Pass?
              && r.result.value == ImageSpec(host.specVersion, volumePath.value, r.layerFolders.value)
  {
    var folders := Prepare(id, rootfs, host);
    if folders.Failure? then Created(Failure(folders.error), None, None)
    else
      var volumePath := host.layers.create(id, rootfs, folders.value);
      var cleanup := Delete(host.layers.existsOnDelete, host.layers);
      if volumePath.Failure? then Created(Failure(volumePath.error), Some(folders.value), Some(cleanup))
      else
        var provisioned := Provision(id, volumePath.value, diskLimit, host);
        if provisioned.Fail? then Created(Failure(provisioned.error), Some(folders.value), Some(cleanup))
        else Created(Success(ImageSpec(host.specVersion, volumePath.value, folders.value)), Some(folders.value), None)
  }

  // ---------------------------------------------------------------------------------------
  // Stats
  // ---------------------------------------------------------------------------------------

  /** `strconv.ParseUint(s, 10, 64)`: one or more decimal digits denoting a value below 2^64. */
  function ParseUint64(s: string): (r: Result<nat, Error>)
    ensures r.Success? <==> s != "" && AllDigits(s) && DigitsValue(s) < Words.TWO_64
    ensures r.Success? ==> r.value == DigitsValue(s)
  {
    if s == "" || !AllDigits(s) then Failure(Msg("strconv.ParseUint: parsing \"" + s + "\": invalid syntax"))
    else if DigitsValue(s) >= Words.TWO_64 then Failure(Msg("strconv.ParseUint: parsing \"" + s + "\": value out of range"))
    else Success(DigitsValue(s))
  }

  /** The recorded size reads back as the number that was written. */
  lemma RecordedSizeRoundTrip(n: nat)
    requires n < Words.TWO_64
    ensures ParseUint64(Decimal(n)) == Success(n)
  {
    DecimalRoundTrip(n);
  }

  /** `DiskUsage`: the volume's bytes in use, and those beyond the size it had when made. */
  datatype DiskUsage = DiskUsage(totalBytesUsed: nat, exclusiveBytesUsed: nat)

  /** `Stats`: find the volume, measure it, read the recorded size; the exclusive use is the
   *  difference in unsigned 64-bit arithmetic. */
  function Stats(id: string, host: Host): (r: Result<DiskUsage, Error>)
    ensures r.Success? <==>
              host.layers.mountPath.Success? && host.diskUsage(host.layers.mountPath.value).Success?
              && host.files.readFile(InfoPath(id, host.layers)).Success?
              && ParseUint64(host.files.readFile(InfoPath(id, host.layers)).value).Success?
    ensures r.Success? ==>
              var total := host.diskUsage(host.layers.mountPath.value).value;
              var size := ParseUint64(host.files.readFile(InfoPath(id, host.layers)).value).value;
              r.value.totalBytesUsed == total && r.value.exclusiveBytesUsed < Words.TWO_64
              && (r.value.exclusiveBytesUsed - (total - size)) % Words.TWO_64 == 0
  {
    var volumePath := host.layers.mountPath;
    if volumePath.Failure? then Failure(volumePath.error)
    else
      var total := host.diskUsage(volumePath.value);
      if total.Failure? then Failure(total.error)
      else
        var text := host.files.readFile(InfoPath(id, host.layers));
        if text.Failure? then Failure(text.error)
        else
          var size := ParseUint64(text.value);
          if size.Failure? then Failure(size.error)
          else Success(DiskUsage(total.value, Words.Uint64(total.value - size.value)))
  }

  /** Reading back the size `Create` recorded: the exclusive use is the growth since the
   *  volume was made, and wraps around when the volume has shrunk below that size. */
  lemma StatsOfRecordedSize(id: string, host: Host, size: nat)
    requires size < Words.TWO_64
    requires host.files.readFile(InfoPath(id, host.layers)) == Success(Decimal(size))
    requires host.layers.mountPath.Success? && host.diskUsage(host.layers.mountPath.value).Success?
    requires host.diskUsage(host.layers.mountPath.value).value < Words.TWO_64
    ensures var total := host.diskUsage(host.layers.mountPath.value).value;
            Stats(id, host).Success?
            && (size <= total ==> Stats(id, host).value.exclusiveBytesUsed == total - size)
            && (total < size ==> Stats(id, host).value.exclusiveBytesUsed == total - size + Words.TWO_64)
  {
    RecordedSizeRoundTrip(size);
  }
}
