/** The older validators of the `winc` command: no default working directory, no path
 *  conversion, only the mandatory-field check on the bundle, and environment keys restricted to
 *  letters, digits and underscores. */
module CliValidate {
  import opened Wrappers
  import opened Errors
  import opened Text
  import Oci
  import WinPath
  import BundleConfig

  predicate IsLetter(c: char) { ('a' <= c <= 'z') || ('A' <= c <= 'Z') }

  /** A key made only of letters, digits and '_' (possibly empty). */
  predicate IdentifierKey(k: string)
  {
    forall i :: 0 <= i < |k| ==> IsLetter(k[i]) || IsDigit(k[i]) || k[i] == '_'
  }

  /** The loop over the trimmed key: stops at the first character that is not allowed. */
  function KeyChars(k: string): (b: bool)
    ensures b <==> IdentifierKey(k)
    decreases |k|
  {
    if k == "" then true
    else if !IsDigit(k[0]) && !IsLetter(k[0]) && k[0] != '_' then false
    else
      var rest := KeyChars(k[1..]);
      assert forall i :: 1 <= i < |k| ==> k[i] == k[1..][i - 1];
      rest
  }

  /** `envValid`: a '=' is required, and the key before the first '=', with surrounding white
   *  space trimmed, may hold only letters, digits and underscores. A leading digit only warns. */
  predicate EnvValid(env: string)
  {
    var items := Split(env, '=');
    |items| >= 2 && KeyChars(TrimSpace(items[0]))
  }

  /** What `envValid` accepts, in terms of the first '='. */
  lemma EnvValidMeans(env: string)
    ensures EnvValid(env) <==> '=' in env && IdentifierKey(TrimSpace(env[..IndexOf(env, '=')]))
  {
    SplitShape(env, '=');
  }

  /** Any key of letters, digits and underscores is accepted, including one that starts with a
   *  digit (which only draws a warning), whatever the value holds. */
  lemma IdentifierKeyAccepted(key: string, value: string)
    requires |key| > 0 && IdentifierKey(key)
    ensures EnvValid(key + "=" + value)
  {
    var env := key + "=" + value;
    assert '=' !in key by {
      forall i | 0 <= i < |key| ensures key[i] != '=' {
        assert IsLetter(key[i]) || IsDigit(key[i]) || key[i] == '_';
      }
    }
    SplitAtFirst(key, '=', value);
    assert env == key + ['='] + value;
    assert !IsSpace(key[0]) && !IsSpace(key[|key| - 1]);
    TrimSpaceKeeps(key);
  }

  /** `envValid` as one of the validators' environment messages. */
  function EnvMessage(env: string): string
  {
    "env " + BundleConfig.Quoted(env)
    + " should be in the form of 'key=value'. The left hand side must consist solely of letters, digits, and underscores '_'."
  }

  /** The command's own process-file errors. A missing or non-UTF-8 file is the config
   *  package's error; the JSON error names only the file; the validation error carries the
   *  merged process, its messages being only logged. */
  datatype ProcessError =
    | Typed(reason: ConfigError)
    | InvalidJSON(processConfig: string)
    | Invalid(processSpec: Oci.Process)

  /** The text of a process-file error. The merged process is printed with Go's `%+v`, whose
   *  struct format is library code; `spec` stands for that rendering. */
  function ProcessErrorMessage(e: ProcessError, spec: Oci.Process -> string): (s: string)
    ensures e.InvalidJSON? ==> s == "process config contains invalid JSON: " + e.processConfig
    ensures e.Invalid? ==> s == "process config is invalid: " + spec(e.processSpec)
    ensures e.Typed? ==> s == ConfigMessage(e.reason)
  {
    match e
    case Typed(reason) => ConfigMessage(reason)
    case InvalidJSON(p) => "process config contains invalid JSON: " + p
    case Invalid(process) => "process config is invalid: " + spec(process)
  }

  /** `ValidateProcess`: the process file if one is named, the overrides merged, then every
   *  violation logged at once and the merged process refused. The cwd is checked as given. */
  function ValidateProcess(processConfig: string, file: BundleConfig.FileRead<Oci.Process>, overrides: Option<Oci.Process>): (r: Result<Oci.Process, ProcessError>)
    ensures processConfig != "" && file.Unreadable? ==> r == Failure(Typed(MissingProcessConfig(processConfig)))
    ensures processConfig != "" && file.Read? && !file.validUtf8 ==> r == Failure(Typed(ProcessConfigInvalidEncoding(processConfig)))
    ensures processConfig != "" && file.Read? && file.validUtf8 && file.json.Failure? ==>
              r == Failure(InvalidJSON(processConfig))
    ensures r.Success? ==> WinPath.IsAbs(r.value.cwd) && |r.value.args| > 0
                           && forall i :: 0 <= i < |r.value.env| ==> EnvValid(r.value.env[i])
    ensures processConfig == "" ==>
              var p := BundleConfig.Merge(Oci.Process([], [], "", ""), overrides);
              (r.Success? <==> WinPath.IsAbs(p.cwd) && |p.args| > 0 && forall i :: 0 <= i < |p.env| ==> EnvValid(p.env[i]))
              && (r.Success? ==> r.value == p)
              && (r.Failure? ==> r == Failure(Invalid(p)))
    ensures processConfig != "" && file.Read? && file.validUtf8 && file.json.Success? ==>
              var p := BundleConfig.Merge(file.json.value, overrides);
              (r.Success? <==> WinPath.IsAbs(p.cwd) && |p.args| > 0 && forall i :: 0 <= i < |p.env| ==> EnvValid(p.env[i]))
              && (r.Success? ==> r.value == p)
              && (r.Failure? ==> r == Failure(Invalid(p)))
    ensures r.Failure? && r.error.Invalid? ==> ProcessMessages(r.error.processSpec) != []
  {
    var read :=
      if processConfig == "" then Success(Oci.Process([], [], "", ""))
      else if file.Unreadable? then Failure(Typed(MissingProcessConfig(processConfig)))
      else if !file.validUtf8 then Failure(Typed(ProcessConfigInvalidEncoding(processConfig)))
      else if file.json.Failure? then Failure(InvalidJSON(processConfig))
      else Success(file.json.value);
    if read.Failure? then Failure(read.error)
    else
      var p := BundleConfig.Merge(read.value, overrides);
      if ProcessMessages(p) != [] then Failure(Invalid(p)) else Success(p)
  }

  /** Every violation of a process, in the order cwd, args, environment. */
  function ProcessMessages(p: Oci.Process): (msgs: seq<string>)
    ensures msgs == [] <==> WinPath.IsAbs(p.cwd) && |p.args| > 0 && forall i :: 0 <= i < |p.env| ==> EnvValid(p.env[i])
  {
    var env := BundleConfig.EnvMessages(p.env, EnvValid, EnvMessage);
    assert env == [] <==> forall i :: 0 <= i < |p.env| ==> EnvValid(p.env[i]);
    (if WinPath.IsAbs(p.cwd) then [] else [BundleConfig.CwdMessage(p.cwd)])
    + (if |p.args| == 0 then [BundleConfig.ARGS_EMPTY] else [])
    + env
  }

  /** Without a process file or a cwd override the empty cwd is not absolute, so validation fails. */
  lemma NoDefaultCwd(overrides: Option<Oci.Process>)
    requires overrides.None? || overrides.value.cwd == ""
    ensures ValidateProcess("", BundleConfig.Unreadable, overrides).Failure?
  {
  }

  /** `ValidateBundle`: the same file checks, then only the mandatory-field messages. */
  function ValidateBundle(bundlePath: string, bundleExists: bool, config: BundleConfig.FileRead<Oci.Spec>,
                          mandatory: Oci.Spec -> seq<string>): (r: Result<Oci.Spec, ConfigError>)
    ensures !bundleExists ==> r == Failure(MissingBundle(bundlePath))
    ensures bundleExists && config.Unreadable? ==> r == Failure(MissingBundleConfig(bundlePath))
    ensures bundleExists && config.Read? && !config.validUtf8 ==> r == Failure(BundleConfigInvalidEncoding(bundlePath))
    ensures r.Success? <==> bundleExists && config.Read? && config.validUtf8 && config.json.Success? && mandatory(config.json.value) == []
    ensures r.Success? ==> r.value == config.json.value
  {
    if !bundleExists then Failure(MissingBundle(bundlePath))
    else if config.Unreadable? then Failure(MissingBundleConfig(bundlePath))
    else if !config.validUtf8 then Failure(BundleConfigInvalidEncoding(bundlePath))
    else if config.json.Failure? then Failure(BundleConfigInvalidJSON(bundlePath, config.json.error))
    else if mandatory(config.json.value) != [] then Failure(BundleConfigValidation(bundlePath, mandatory(config.json.value)))
    else Success(config.json.value)
  }

  /** The command's own texts for the bundle errors: the JSON error names no path or cause, and
   *  the validation error lists no messages. */
  function CliMessage(e: ConfigError): (s: string)
    ensures e.BundleConfigInvalidJSON? ==> s == "bundle " + SPEC_CONFIG + " contains invalid JSON: "
    ensures e.BundleConfigValidation? ==> s == "bundle " + SPEC_CONFIG + " is invalid: " + e.bundlePath
    ensures !e.BundleConfigInvalidJSON? && !e.BundleConfigValidation? ==> s == ConfigMessage(e)
  {
    match e
    case BundleConfigInvalidJSON(_, _) => "bundle " + SPEC_CONFIG + " contains invalid JSON: "
    case BundleConfigValidation(p, _) => "bundle " + SPEC_CONFIG + " is invalid: " + p
    case _ => ConfigMessage(e)
  }
}
