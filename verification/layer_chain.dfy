/** What the image and sandbox managers share about a rootfs: whether a path can be looked at,
 *  and where its `layerchain.json` (the JSON list of its parent layers) lives. */
module LayerChain {
  import opened Wrappers
  import opened Errors
  import WinPath

  /** The answer of `os.Stat`: the path is there, it does not exist, or looking failed. */
  datatype Stat = Present | NotExist | StatFailed(error: Error)

  const LAYERCHAIN_FILE: string := "layerchain.json"

  /** The file system calls the managers make, and how a file's text parses as a JSON list of
   *  strings (`None` when it does not). */
  datatype Files = Files(
    stat: string -> Stat,
    readFile: string -> Result<string, Error>,
    writeFile: (string, string) -> Outcome<Error>,
    parseChain: string -> Option<seq<string>>)

  /** A stat check: a missing path is reported with the caller's typed error, any other
   *  failure as it came. */
  function CheckExists(s: Stat, missing: Error): (r: Outcome<Error>)
    ensures r.Pass? <==> s.Present?
    ensures s.NotExist? ==> r == Fail(missing)
    ensures s.StatFailed? ==> r == Fail(s.error)
  {
    match s
    case Present => Pass
    case NotExist => Fail(missing)
    case StatFailed(e) => Fail(e)
  }

  /** The layer chain file of a rootfs. */
  function ChainPath(rootfs: string): string
  {
    WinPath.JoinPath([rootfs, LAYERCHAIN_FILE])
  }

  /** Reading the chain file: any read error means the rootfs has no layer chain. */
  function ReadChain(rootfs: string, fs: Files): (r: Result<string, Error>)
    ensures r.Failure? <==> fs.readFile(ChainPath(rootfs)).Failure?
    ensures r.Failure? ==> r.error == MissingRootfsLayerChain(rootfs)
    ensures r.Success? ==> r.value == fs.readFile(ChainPath(rootfs)).value
  {
    var text := fs.readFile(ChainPath(rootfs));
    if text.Failure? then Failure(MissingRootfsLayerChain(rootfs)) else Success(text.value)
  }

  /** Parsing the chain: text that is not a JSON list of strings is an invalid chain. */
  function ParseChain(rootfs: string, text: string, fs: Files): (r: Result<seq<string>, Error>)
    ensures r.Failure? <==> fs.parseChain(text).None?
    ensures r.Failure? ==> r.error == InvalidRootfsLayerChain(rootfs)
    ensures r.Success? ==> r.value == fs.parseChain(text).value
  {
    var parents := fs.parseChain(text);
    if parents.None? then Failure(InvalidRootfsLayerChain(rootfs)) else Success(parents.value)
  }
}
