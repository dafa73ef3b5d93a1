/** The sandbox manager: a container's writable sandbox layer kept inside its bundle
 *  directory, made on top of a rootfs and its parent layers, mounted as a volume under
 *  `<bundle>\mnt`, and destroyed by removing a fixed list of files. */
module Sandbox {
  import opened Wrappers
  import opened Errors
  import opened Text
  import WinPath
  import opened LayerChain

  /** The files a sandbox layer leaves in the bundle directory, removed in this order. */
  const SANDBOX_FILES: seq<string> := ["Hives", "initialized", "sandbox.vhdx", LAYERCHAIN_FILE]

  const MOUNT_DIR: string := "mnt"
  const SANDBOX_DISK: string := "sandbox.vhdx"

  /** A manager for one bundle; the layer's id is the bundle directory's last element. */
  datatype Manager = Manager(bundlePath: string, id: string)

  function NewManager(bundlePath: string): (m: Manager)
    ensures m.bundlePath == bundlePath && m.id == WinPath.Base(bundlePath)
    ensures |m.id| >= 1
  {
    Manager(bundlePath, WinPath.Base(bundlePath))
  }

  /** The storage calls as the sandbox manager makes them, and their answers. */
  datatype Call =
    | CreateSandboxLayer(id: string, parentId: string, parents: seq<string>)
    | ActivateLayer(id: string)
    | PrepareLayer(id: string, parents: seq<string>)
    | WriteChain(path: string, layers: seq<string>)
    | UnprepareLayer(id: string)
    | DeactivateLayer(id: string)
    | RemoveAll(path: string)
    | MakeDir(path: string)
    | Command(name: string, args: seq<string>)

  /** What the storage, file and command calls answer. `writeChain` writes the JSON
   *  encoding of a layer list, which cannot fail to encode. */
  datatype Host = Host(
    files: Files,
    createSandbox: Outcome<Error>,
    activate: Outcome<Error>,
    prepare: Outcome<Error>,
    writeChain: Outcome<Error>,
    unprepare: Outcome<Error>,
    deactivate: Outcome<Error>,
    removeAll: string -> Outcome<Error>,
    mkdir: Outcome<Error>,
    output: Result<string, Error>,
    run: seq<string> -> Outcome<Error>)

  /** A result together with the calls made, in order. */
  datatype Done<T> = Done(result: T, calls: seq<Call>)

  // ---------------------------------------------------------------------------------------
  // Create
  // ---------------------------------------------------------------------------------------

  /** The checks before any layer call, in order: the bundle directory exists, the rootfs
   *  exists, its layer chain can be read and parses. The value is the parent chain. */
  function ReadParents(m: Manager, rootfs: string, host: Host): (r: Result<seq<string>, Error>)
    ensures host.files.stat(m.bundlePath).NotExist? ==> r == Failure(MissingBundlePath(m.bundlePath))
    ensures host.files.stat(m.bundlePath).StatFailed? ==> r == Failure(host.files.stat(m.bundlePath).error)
    ensures host.files.stat(m.bundlePath).Present? && host.files.stat(rootfs).NotExist? ==> r == Failure(MissingRootfs(rootfs))
    ensures host.files.stat(m.bundlePath).Present? && host.files.stat(rootfs).Present? ==>
              (ReadChain(rootfs, host.files).Failure? ==> r == Failure(MissingRootfsLayerChain(rootfs)))
    ensures r.Success? <==>
              host.files.stat(m.bundlePath).Present? && host.files.stat(rootfs).Present?
              && ReadChain(rootfs, host.files).Success? && host.files.parseChain(ReadChain(rootfs, host.files).value).Some?
    ensures r.Success? ==> r.value == host.files.parseChain(ReadChain(rootfs, host.files).value).value
  {
    var bundle := CheckExists(host.files.stat(m.bundlePath), MissingBundlePath(m.bundlePath));
    if bundle.Fail? then Failure(bundle.error)
    else
      var present := CheckExists(host.files.stat(rootfs), MissingRootfs(rootfs));
      if present.Fail? then Failure(present.error)
      else
        var text := ReadChain(rootfs, host.files);
        if text.Failure? then Failure(text.error)
        else ParseChain(rootfs, text.value, host.files)
  }

  /** The chain file written into the bundle. */
  function BundleChainPath(m: Manager): string
  {
    WinPath.JoinPath([m.bundlePath, LAYERCHAIN_FILE])
  }

  /** The layer calls once the parent chain is known and the first parent has been picked:
   *  create, activate, prepare, then write the rootfs followed by its parents into the bundle's
   *  chain file, stopping at the first failure. */
  function MakeLayer(m: Manager, rootfs: string, parentId: string, parents: seq<string>, host: Host): (r: Done<Outcome<Error>>)
    ensures 1 <= |r.calls| <= 4
    ensures r.calls[0] == CreateSandboxLayer(m.id, parentId, parents)
    ensures |r.calls| >= 2 ==> r.calls[1] == ActivateLayer(m.id)
    ensures |r.calls| >= 3 ==> r.calls[2] == PrepareLayer(m.id, parents)
    ensures |r.calls| == 4 ==> r.calls[3] == WriteChain(BundleChainPath(m), [rootfs] + parents)
    ensures r.result.Pass? <==> host.createSandbox.Pass? && host.activate.Pass? && host.prepare.Pass? && host.writeChain.Pass?
    ensures r.result.Fail? ==> r.result == [host.createSandbox, host.activate, host.prepare, host.writeChain][|r.calls| - 1]
    ensures forall i :: 0 <= i < |r.calls| - 1 ==> [host.createSandbox, host.activate, host.prepare, host.writeChain][i].Pass?
    ensures r.result.Pass? ==> |r.calls| == 4
  {
    var create := CreateSandboxLayer(m.id, parentId, parents);
    if host.createSandbox.Fail? then Done(host.createSandbox, [create])
    else if host.activate.Fail? then Done(host.activate, [create, ActivateLayer(m.id)])
    else if host.prepare.Fail? then Done(host.prepare, [create, ActivateLayer(m.id), PrepareLayer(m.id, parents)])
    else Done(host.writeChain, [create, ActivateLayer(m.id), PrepareLayer(m.id, parents), WriteChain(BundleChainPath(m), [rootfs] + parents)])
  }

  /** `Create` as written: the first parent is taken as the parent layer's id before anything
   *  looks at the chain's length, so a rootfs whose chain is the empty list makes it panic. */
  function CreateAsWritten(m: Manager, rootfs: string, host: Host): (r: Completion<Done<Outcome<Error>>>)
    ensures ReadParents(m, rootfs, host).Failure? ==> r == Returned(Done(Fail(ReadParents(m, rootfs, host).error), []))
    ensures r.Panicked? <==> ReadParents(m, rootfs, host) == Success([])
  {
    var parents := ReadParents(m, rootfs, host);
    if parents.Failure? then Returned(Done(Fail(parents.error), []))
    else if |parents.value| == 0 then Panicked
    else Returned(MakeLayer(m, rootfs, parents.value[0], parents.value, host))
  }

  /** `Create`: as written, except that an empty chain is reported as an invalid layer chain
   *  instead of panicking. On success the bundle's chain is the rootfs followed by the
   *  rootfs's own chain, and the new layer's parent is the first of those parents. */
  function Create(m: Manager, rootfs: string, host: Host): (r: Done<Outcome<Error>>)
    ensures ReadParents(m, rootfs, host).Failure? ==> r == Done(Fail(ReadParents(m, rootfs, host).error), [])
    ensures ReadParents(m, rootfs, host) == Success([]) ==> r == Done(Fail(InvalidRootfsLayerChain(rootfs)), [])
    ensures ReadParents(m, rootfs, host).Success? && |ReadParents(m, rootfs, host).value| > 0 ==>
              var parents := ReadParents(m, rootfs, host).value;
              r == MakeLayer(m, rootfs, parents[0], parents, host)
    ensures r.calls != [] ==>
              var parents := ReadParents(m, rootfs, host).value;
              |parents| > 0 && r.calls[0] == CreateSandboxLayer(m.id, parents[0], parents)
    ensures r.result.Pass? ==>
              |r.calls| == 4 && r.calls[3] == WriteChain(BundleChainPath(m), [rootfs] + ReadParents(m, rootfs, host).value)
  {
    var parents := ReadParents(m, rootfs, host);
    if parents.Failure? then Done(Fail(parents.error), [])
    else if |parents.value| == 0 then Done(Fail(InvalidRootfsLayerChain(rootfs)), [])
    else MakeLayer(m, rootfs, parents.value[0], parents.value, host)
  }

  /** A rootfs whose chain file holds `[]` makes `Create` as written panic; the corrected
   *  `Create` reports the invalid chain and makes no layer call. */
  lemma EmptyChainPanics(m: Manager, rootfs: string, host: Host)
    requires host.files.stat(m.bundlePath).Present? && host.files.stat(rootfs).Present?
    requires host.files.readFile(ChainPath(rootfs)).Success?
    requires host.files.parseChain(host.files.readFile(ChainPath(rootfs)).value) == Some([])
    ensures CreateAsWritten(m, rootfs, host).Panicked?
    ensures Create(m, rootfs, host) == Done(Fail(InvalidRootfsLayerChain(rootfs)), [])
  {
  }

  /** Wherever `Create` as written returns, the corrected `Create` returns the same. */
  lemma CreateAgreesWhenReturning(m: Manager, rootfs: string, host: Host)
    ensures CreateAsWritten(m, rootfs, host).Returned? ==> CreateAsWritten(m, rootfs, host).value == Create(m, rootfs, host)
  {
  }

  // ---------------------------------------------------------------------------------------
  // Delete
  // ---------------------------------------------------------------------------------------

  /** The bundle's copy of each sandbox file, in order. */
  function LayerFiles(m: Manager): (paths: seq<string>)
    ensures |paths| == |SANDBOX_FILES|
  {
    seq(|SANDBOX_FILES|, i requires 0 <= i < |SANDBOX_FILES| => WinPath.JoinPath([m.bundlePath, SANDBOX_FILES[i]]))
  }

  /** The index of the first removal from `from` on that fails, or the number of paths. */
  function FirstUnremoved(paths: seq<string>, removeAll: string -> Outcome<Error>, from: nat): (k: nat)
    requires from <= |paths|
    ensures from <= k <= |paths|
    ensures forall j :: from <= j < k ==> removeAll(paths[j]).Pass?
    ensures k < |paths| ==> removeAll(paths[k]).Fail?
    decreases |paths| - from
  {
    if from == |paths| || removeAll(paths[from]).Fail? then from else FirstUnremoved(paths, removeAll, from + 1)
  }

  /** Removing paths one by one; a failed removal stops with an error naming that path. */
  function RemoveEach(paths: seq<string>, removeAll: string -> Outcome<Error>): (r: Done<Outcome<Error>>)
    ensures |r.calls| <= |paths|
    ensures forall i :: 0 <= i < |r.calls| ==> r.calls[i] == RemoveAll(paths[i])
    ensures r.result.Pass? <==> forall i :: 0 <= i < |paths| ==> removeAll(paths[i]).Pass?
    ensures r.result.Pass? ==> |r.calls| == |paths|
    ensures r.result.Fail? ==>
              0 < |r.calls| && r.result == Fail(UnableToDestroyLayer(paths[|r.calls| - 1]))
              && removeAll(paths[|r.calls| - 1]).Fail?
              && forall j :: 0 <= j < |r.calls| - 1 ==> removeAll(paths[j]).Pass?
  {
    var k := FirstUnremoved(paths, removeAll, 0);
    var removals := seq(if k < |paths| then k + 1 else k, i requires 0 <= i < |paths| && i <= k => RemoveAll(paths[i]));
    if k < |paths| then Done(Fail(UnableToDestroyLayer(paths[k])), removals)
    else Done(Pass, removals)
  }

  /** `Delete`: unprepare and deactivate the layer, then remove the sandbox files from the
   *  bundle in order; a failed removal stops with an error naming that file. */
  function Delete(m: Manager, host: Host): (r: Done<Outcome<Error>>)
    ensures host.unprepare.Fail? ==> r == Done(host.unprepare, [UnprepareLayer(m.id)])
    ensures host.unprepare.Pass? && host.deactivate.Fail? ==> r == Done(host.deactivate, [UnprepareLayer(m.id), DeactivateLayer(m.id)])
    ensures host.unprepare.Pass? && host.deactivate.Pass? ==>
              |r.calls| >= 2 && r.calls[..2] == [UnprepareLayer(m.id), DeactivateLayer(m.id)]
              && Done(r.result, r.calls[2..]) == RemoveEach(LayerFiles(m), host.removeAll)
  {
    if host.unprepare.Fail? then Done(host.unprepare, [UnprepareLayer(m.id)])
    else if host.deactivate.Fail? then Done(host.deactivate, [UnprepareLayer(m.id), DeactivateLayer(m.id)])
    else
      var removed := RemoveEach(LayerFiles(m), host.removeAll);
      Done(removed.result, [UnprepareLayer(m.id), DeactivateLayer(m.id)] + removed.calls)
  }

  /** The sandbox files of a bundle given as a cleaned absolute path lie directly inside it. */
  lemma LayerFilesInBundle(m: Manager)
    requires WinPath.IsAbs(m.bundlePath) && m.bundlePath == WinPath.Clean(m.bundlePath) && |m.bundlePath| > 3
    ensures forall i :: 0 <= i < |SANDBOX_FILES| ==> LayerFiles(m)[i] == m.bundlePath + [WinPath.SEPARATOR] + SANDBOX_FILES[i]
  {
    forall i | 0 <= i < |SANDBOX_FILES|
      ensures LayerFiles(m)[i] == m.bundlePath + [WinPath.SEPARATOR] + SANDBOX_FILES[i]
    {
      InBundle(m.bundlePath, SANDBOX_FILES[i]);
    }
  }

  /** For a bundle given as a cleaned absolute path, everything `Delete` removes is one of the
   *  sandbox files directly inside it; other files in the bundle are left alone. */
  lemma DeleteRemovesOnlySandboxFiles(m: Manager, host: Host)
    requires WinPath.IsAbs(m.bundlePath) && m.bundlePath == WinPath.Clean(m.bundlePath) && |m.bundlePath| > 3
    ensures forall c :: c in Delete(m, host).calls && c.RemoveAll? ==>
              exists f :: f in SANDBOX_FILES && c.path == m.bundlePath + [WinPath.SEPARATOR] + f
  {
    var r := Delete(m, host);
    LayerFilesInBundle(m);
    forall c | c in r.calls && c.RemoveAll?
      ensures exists f :: f in SANDBOX_FILES && c.path == m.bundlePath + [WinPath.SEPARATOR] + f
    {
      var i :| 0 <= i < |r.calls| && r.calls[i] == c;
      assert i >= 2;
      var removed := RemoveEach(LayerFiles(m), host.removeAll);
      assert r.calls[2..] == removed.calls;
      assert c == removed.calls[i - 2];
      assert c.path == LayerFiles(m)[i - 2];
      assert SANDBOX_FILES[i - 2] in SANDBOX_FILES;
    }
  }

  /** Joining a plain name onto a bundle given as a cleaned absolute path. */
  lemma InBundle(bundle: string, name: string)
    requires WinPath.IsAbs(bundle) && bundle == WinPath.Clean(bundle) && |bundle| > 3
    requires WinPath.PlainElement(name)
    ensures WinPath.JoinPath([bundle, name]) == bundle + [WinPath.SEPARATOR] + name
  {
    var c := WinPath.Clean(bundle);
    WinPath.JoinOntoCleanDir(bundle, name);
    assert WinPath.JoinPath([c, name]) == c + [WinPath.SEPARATOR] + name;
  }

  // ---------------------------------------------------------------------------------------
  // Mount and Unmount
  // ---------------------------------------------------------------------------------------

  /** Where the sandbox volume is mounted. */
  function MountPath(m: Manager): string
  {
    WinPath.JoinPath([m.bundlePath, MOUNT_DIR])
  }

  /** The mount point of a bundle given as a cleaned absolute path is its `mnt` child. */
  lemma MountPathInBundle(m: Manager)
    requires WinPath.IsAbs(m.bundlePath) && m.bundlePath == WinPath.Clean(m.bundlePath) && |m.bundlePath| > 3
    ensures MountPath(m) == m.bundlePath + [WinPath.SEPARATOR] + MOUNT_DIR
  {
    assert WinPath.PlainElement(MOUNT_DIR);
    InBundle(m.bundlePath, MOUNT_DIR);
  }

  /** The PowerShell pipeline that prints the volume name of the sandbox's disk image. */
  function VolumeQuery(m: Manager): string
  {
    "(get-diskimage \"" + WinPath.JoinPath([m.bundlePath, SANDBOX_DISK]) + "\" | get-disk | get-partition | get-volume).Path"
  }

  /** `Mount`: make the mount point, ask PowerShell for the volume of the sandbox disk, and
   *  mount that volume (the output with surrounding space trimmed) at the mount point. */
  function Mount(m: Manager, host: Host): (r: Done<Outcome<Error>>)
    ensures |r.calls| > 0 && r.calls[0] == MakeDir(MountPath(m))
    ensures host.mkdir.Fail? ==> r == Done(host.mkdir, [MakeDir(MountPath(m))])
    ensures host.mkdir.Pass? ==> |r.calls| >= 2 && r.calls[1] == Command("powershell.exe", ["-Command", VolumeQuery(m)])
    ensures host.mkdir.Pass? && host.output.Failure? ==> r.result == Fail(host.output.error) && |r.calls| == 2
    ensures host.mkdir.Pass? && host.output.Success? ==>
              var args := ["mountvol", MountPath(m), TrimSpace(host.output.value)];
              |r.calls| == 3 && r.calls[2] == Command(args[0], args[1..]) && r.result == host.run(args)
  {
    var mkdir := MakeDir(MountPath(m));
    if host.mkdir.Fail? then Done(host.mkdir, [mkdir])
    else
      var query := Command("powershell.exe", ["-Command", VolumeQuery(m)]);
      if host.output.Failure? then Done(Fail(host.output.error), [mkdir, query])
      else
        var args := ["mountvol", MountPath(m), TrimSpace(host.output.value)];
        Done(host.run(args), [mkdir, query, Command(args[0], args[1..])])
  }

  /** `Unmount`: remove the volume mount point with `mountvol /D`, then the directory. */
  function Unmount(m: Manager, host: Host): (r: Done<Outcome<Error>>)
    ensures |r.calls| > 0 && r.calls[0] == Command("mountvol", [MountPath(m), "/D"])
    ensures host.run(["mountvol", MountPath(m), "/D"]).Fail? ==> r.result == host.run(["mountvol", MountPath(m), "/D"]) && |r.calls| == 1
    ensures host.run(["mountvol", MountPath(m), "/D"]).Pass? ==>
              r.calls == [Command("mountvol", [MountPath(m), "/D"]), RemoveAll(MountPath(m))] && r.result == host.removeAll(MountPath(m))
  {
    var unmount := ["mountvol", MountPath(m), "/D"];
    var done := host.run(unmount);
    if done.Fail? then Done(done, [Command(unmount[0], unmount[1..])])
    else Done(host.removeAll(MountPath(m)), [Command(unmount[0], unmount[1..]), RemoveAll(MountPath(m))])
  }

  /** `Unmount` releases the very directory `Mount` made and mounted the volume on. */
  lemma UnmountUndoesMount(m: Manager, host: Host)
    requires host.mkdir.Pass? && host.output.Success?
    requires host.run(["mountvol", MountPath(m), "/D"]).Pass?
    ensures var mounted := Mount(m, host).calls;
            var released := Unmount(m, host).calls;
            mounted[0] == MakeDir(released[1].path) && mounted[2].args[0] == released[0].args[0]
  {
  }
}
