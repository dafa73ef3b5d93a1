/** The Go `error` values the modelled code creates or switches on, and the two ways it merges them. */
module Errors {
  import opened Wrappers
  import opened Text

  /** `Msg` is any `errors.New` / `fmt.Errorf` value; the other variants are the typed errors
   *  that some caller tells apart by type or by identity. */
  datatype Error =
    | Msg(text: string)
    | ContainerNotFound(id: string)              // hcs.NotFoundError
    | DuplicateContainer(id: string)             // hcs.DuplicateError
    | ContainerAlreadyExists(id: string)         // container.AlreadyExistsError
    | InvalidId(id: string)                      // container.InvalidIdError
    | InvalidMountOptions(id: string, options: seq<string>)
    | MissingVolumePath(id: string)              // container.MissingVolumePathError, layer's namesake
    | CouldNotCreateProcess(id: string, command: string, cause: Option<string>)  // under `errors.Wrap` when a cause is given
    | EndpointNotFound(id: string)               // hcsshim.EndpointNotFoundError
    | ComputeSystemDoesNotExist                  // hcsshim.ErrComputeSystemDoesNotExist
    | NoNatNetwork(name: string)
    | SameNatNetworkName(name: string)
    | LayerExists(id: string)
    | MissingRootfs(path: string)
    | MissingRootfsLayerChain(path: string)
    | InvalidRootfsLayerChain(path: string)
    | MissingBundlePath(path: string)
    | UnableToDestroyLayer(path: string)
    | Config(reason: ConfigError)                // the config package's typed errors

  /** The config package's bundle and process-file errors. */
  datatype ConfigError =
    | MissingBundle(bundlePath: string)
    | MissingBundleConfig(bundlePath: string)
    | BundleConfigInvalidEncoding(bundlePath: string)
    | BundleConfigInvalidJSON(bundlePath: string, internal: string)
    | BundleConfigValidation(bundlePath: string, messages: seq<string>)
    | MissingProcessConfig(processConfig: string)
    | ProcessConfigInvalidEncoding(processConfig: string)
    | ProcessConfigInvalidJSON(processConfig: string, internal: string)
    | ProcessConfigValidation(messages: seq<string>)

  const SPEC_CONFIG: string := "config.json"

  /** Each message on a line of its own, indented by a tab, as the validation errors list them. */
  function Indented(messages: seq<string>): (r: string)
    ensures messages == [] ==> r == ""
    decreases |messages|
  {
    if messages == [] then "" else Indented(messages[..|messages| - 1]) + "\n\t" + messages[|messages| - 1]
  }

  /** The text of a config error. */
  function ConfigMessage(c: ConfigError): string
  {
    match c
    case MissingBundle(p) => "bundle does not exist: " + p
    case MissingBundleConfig(p) => "bundle " + SPEC_CONFIG + " does not exist: " + p
    case BundleConfigInvalidEncoding(p) => "bundle " + SPEC_CONFIG + " not encoded in UTF-8: " + p
    case BundleConfigInvalidJSON(p, internal) => "bundle " + SPEC_CONFIG + " contains invalid JSON: " + p + ": " + internal
    case BundleConfigValidation(p, msgs) => "bundle " + SPEC_CONFIG + " is invalid: " + p + ":" + Indented(msgs)
    case MissingProcessConfig(p) => "process config does not exist: " + p
    case ProcessConfigInvalidEncoding(p) => "process config is not encoded in UTF-8: " + p
    case ProcessConfigInvalidJSON(p, internal) => "process config contains invalid JSON: " + p + ": " + internal
    case ProcessConfigValidation(msgs) => "process config is invalid:" + Indented(msgs)
  }

  /** Listing the messages is writing a newline and a tab before each, and otherwise joining
   *  them with that separator. */
  lemma {:induction false} IndentedJoins(messages: seq<string>)
    ensures messages != [] ==> Indented(messages) == "\n\t" + Join(messages, "\n\t")
    decreases |messages|
  {
    if |messages| > 1 {
      var front := messages[..|messages| - 1];
      var last := messages[|messages| - 1];
      IndentedJoins(front);
      assert messages == front + [last];
      JoinSnoc(front, last, "\n\t");
      assert Indented(messages) == Indented(front) + "\n\t" + last;
    } else if |messages| == 1 {
      assert messages[..0] == [];
    }
  }

  /** The file a config error is about; a process validation error names none. */
  function ConfigSubject(c: ConfigError): string
  {
    match c
    case MissingBundle(p) => p
    case MissingBundleConfig(p) => p
    case BundleConfigInvalidEncoding(p) => p
    case BundleConfigInvalidJSON(p, _) => p
    case BundleConfigValidation(p, _) => p
    case MissingProcessConfig(p) => p
    case ProcessConfigInvalidEncoding(p) => p
    case ProcessConfigInvalidJSON(p, _) => p
    case ProcessConfigValidation(_) => ""
  }

  /** A bundle validation error puts each of its messages on a tab-indented line of its own
   *  after a header naming the bundle and ending in ':'. */
  lemma BundleValidationMessage(bundlePath: string, messages: seq<string>)
    requires messages != []
    ensures ConfigMessage(BundleConfigValidation(bundlePath, messages))
            == "bundle " + SPEC_CONFIG + " is invalid: " + bundlePath + ":\n\t" + Join(messages, "\n\t")
  {
    IndentedJoins(messages);
  }

  /** A process validation error lists its messages the same way after its fixed header. */
  lemma ProcessValidationMessage(messages: seq<string>)
    requires messages != []
    ensures ConfigMessage(ProcessConfigValidation(messages)) == "process config is invalid:\n\t" + Join(messages, "\n\t")
  {
    IndentedJoins(messages);
  }

  /** Every config error names the file it is about. */
  lemma ConfigMessageNamesSubject(c: ConfigError)
    ensures Contains(ConfigMessage(c), ConfigSubject(c))
  {
    var m := ConfigMessage(c);
    match c
    case MissingBundle(p) =>
      ContainsMiddle("bundle does not exist: ", p, "");
      assert m == "bundle does not exist: " + p + "";
    case MissingBundleConfig(p) =>
      ContainsMiddle("bundle " + SPEC_CONFIG + " does not exist: ", p, "");
      assert m == "bundle " + SPEC_CONFIG + " does not exist: " + p + "";
    case BundleConfigInvalidEncoding(p) =>
      ContainsMiddle("bundle " + SPEC_CONFIG + " not encoded in UTF-8: ", p, "");
      assert m == "bundle " + SPEC_CONFIG + " not encoded in UTF-8: " + p + "";
    case BundleConfigInvalidJSON(p, internal) =>
      ContainsMiddle("bundle " + SPEC_CONFIG + " contains invalid JSON: ", p, ": " + internal);
      assert m == "bundle " + SPEC_CONFIG + " contains invalid JSON: " + p + (": " + internal);
    case BundleConfigValidation(p, msgs) =>
      ContainsMiddle("bundle " + SPEC_CONFIG + " is invalid: ", p, ":" + Indented(msgs));
      assert m == "bundle " + SPEC_CONFIG + " is invalid: " + p + (":" + Indented(msgs));
    case MissingProcessConfig(p) =>
      ContainsMiddle("process config does not exist: ", p, "");
      assert m == "process config does not exist: " + p + "";
    case ProcessConfigInvalidEncoding(p) =>
      ContainsMiddle("process config is not encoded in UTF-8: ", p, "");
      assert m == "process config is not encoded in UTF-8: " + p + "";
    case ProcessConfigInvalidJSON(p, internal) =>
      ContainsMiddle("process config contains invalid JSON: ", p, ": " + internal);
      assert m == "process config contains invalid JSON: " + p + (": " + internal);
    case ProcessConfigValidation(msgs) =>
      assert m[..0] == "";
  }

  /** `err.Error()`. Where the format lives in a file outside this model the text is a stand-in
   *  that still names the type and its fields. */
  function Message(e: Error): (s: string)
    ensures e.Msg? ==> s == e.text
  {
    match e
    case Msg(t) => t
    case _ => if e.NoNatNetwork? || e.SameNatNetworkName? || e.LayerExists? || e.MissingRootfs? || e.MissingRootfsLayerChain?
                 || e.InvalidRootfsLayerChain? || e.MissingBundlePath? || e.UnableToDestroyLayer? || e.Config?
              then StorageOrNetworkMessage(e) else ContainerMessage(e)
  }

  /** `errors.Cause`: the error under every `errors.Wrap`. Only the process-creation error is
   *  wrapped in the modelled code. */
  function Cause(e: Error): (r: Error)
    ensures r.CouldNotCreateProcess? <==> e.CouldNotCreateProcess?
    ensures r.CouldNotCreateProcess? ==> r.cause.None? && r.id == e.id && r.command == e.command
    ensures e.CouldNotCreateProcess? && e.cause.Some? ==> Message(e) == e.cause.value + ": " + Message(r)
    ensures !e.CouldNotCreateProcess? || e.cause.None? ==> r == e
  {
    if e.CouldNotCreateProcess? then CouldNotCreateProcess(e.id, e.command, None) else e
  }

  function ContainerMessage(e: Error): string
  {
    match e
    case ContainerNotFound(id) => "container not found: " + id
    case DuplicateContainer(id) => "multiple containers found with the same id: " + id
    case ContainerAlreadyExists(id) => "container with id already exists: " + id
    case InvalidId(id) => "container id does not match bundle directory name: " + id
    case InvalidMountOptions(id, options) => "invalid mount options for container " + id + ": " + Join(options, ",")
    case MissingVolumePath(id) => "could not get volume path for container: " + id
    case CouldNotCreateProcess(id, command, cause) =>
      (if cause.Some? then cause.value + ": " else "") + "could not start command '" + command + "' in container: " + id
    case EndpointNotFound(id) => "Endpoint " + id + " not found"
    case ComputeSystemDoesNotExist => "A virtual machine or container with the specified identifier does not exist."
    case _ => ""
  }

  function StorageOrNetworkMessage(e: Error): string
  {
    match e
    case NoNatNetwork(name) => "no NAT network " + name
    case SameNatNetworkName(name) => "network " + name + " already exists with different subnets"
    case LayerExists(id) => "layer already exists: " + id
    case MissingRootfs(p) => "rootfs layer does not exist: " + p
    case MissingRootfsLayerChain(p) => "rootfs does not contain a layerchain.json: " + p
    case InvalidRootfsLayerChain(p) => "rootfs contains an invalid layerchain.json: " + p
    case MissingBundlePath(p) => "bundlePath does not exist: " + p
    case UnableToDestroyLayer(p) => "unable to destroy layer file: " + p
    case Config(c) => ConfigMessage(c)
    case _ => ""
  }

  /** `fmt.Errorf(prefix + "%s", err)`: a wrapping that keeps the cause's text. */
  function Wrap(prefix: string, e: Error): (r: Error)
    ensures r.Msg? && StartsWith(r.text, prefix) && |r.text| == |prefix| + |Message(e)|
  {
    Msg(prefix + Message(e))
  }

  /** The cleanup idiom: both steps always run; both failing gives `"a, b"`, otherwise the one failure or nil. */
  function CombinePair(first: Outcome<Error>, second: Outcome<Error>): (r: Outcome<Error>)
    ensures r.Pass? <==> first.Pass? && second.Pass?
    ensures first.Fail? && second.Pass? ==> r == first
    ensures first.Pass? && second.Fail? ==> r == second
    ensures first.Fail? && second.Fail? ==> r == Fail(Msg(Message(first.error) + ", " + Message(second.error)))
    ensures first.Fail? && second.Fail? ==>
              r.error.Msg? && Contains(r.error.text, Message(first.error)) && Contains(r.error.text, Message(second.error))
  {
    if first.Fail? && second.Fail? then
      var r := Msg(Message(first.error) + ", " + Message(second.error));
      ContainsMiddle("", Message(first.error), ", " + Message(second.error));
      assert Message(first.error) + ", " + Message(second.error) == "" + Message(first.error) + (", " + Message(second.error));
      ContainsMiddle(Message(first.error) + ", ", Message(second.error), "");
      assert Message(first.error) + ", " + Message(second.error) == Message(first.error) + ", " + Message(second.error) + "";
      Fail(r)
    else if first.Fail? then first
    else second
  }

  /** The messages of every failure collected, joined with newlines, or nil when there was none.
   *  The runtime makes this error with `errors.New`; the container manager passes the same text to
   *  `fmt.Errorf` as its format, which gives this text only when no message holds a `%`. */
  function JoinAll(errs: seq<Error>): (r: Outcome<Error>)
    ensures r.Pass? <==> |errs| == 0
    ensures |errs| == 1 ==> r == Fail(Msg(Message(errs[0])))
    ensures r.Fail? ==> r.error.Msg? && StartsWith(r.error.text, Message(errs[0]))
  {
    if |errs| == 0 then Pass
    else
      JoinStartsWithFirst(Messages(errs), "\n");
      Fail(Msg(Join(Messages(errs), "\n")))
  }

  function Messages(errs: seq<Error>): (r: seq<string>)
    ensures |r| == |errs| && forall i :: 0 <= i < |errs| ==> r[i] == Message(errs[i])
  {
    seq(|errs|, i requires 0 <= i < |errs| => Message(errs[i]))
  }
}
