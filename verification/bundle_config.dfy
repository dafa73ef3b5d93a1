/** The config package: reading and checking a bundle's `config.json` and a process file, merging
 *  command-line overrides into the process, and the messages every check produces. */
module BundleConfig {
  import opened Wrappers
  import opened Errors
  import opened Text
  import Oci
  import WinPath
  import ContainerSetup

  /** A file as the validators read it: missing or unreadable, or its bytes with whether they are
   *  UTF-8 and what decoding them as JSON gives (or the decoder's message). */
  datatype FileRead<T> = Unreadable | Read(validUtf8: bool, json: Result<T, string>)

  const DEFAULT_CWD: string := "C:\\"

  /** The runtime-spec major version the validator handles (`specs.VersionMajor`). */
  const VERSION_MAJOR: nat := 1

  /** `%q` (`strconv.Quote`): the text in double quotes, each character escaped as `EscapeChar` says. */
  function Quoted(s: string): (r: string)
    ensures |r| >= |s| + 2 && r[0] == '"' && r[|r| - 1] == '"'
    ensures Unquote(r) == Some(s)
  {
    QuoteRoundTrip(s);
    "\"" + Escapes(s) + "\""
  }

  /** The characters `strconv.Quote` writes as they are: printable ASCII, and every character above
   *  the C1 control block. */
  predicate Printable(c: char)
  {
    (' ' <= c && c <= '~') || c > '\U{9f}'
  }

  /** A lower-case hexadecimal digit. */
  function HexDigit(n: nat): char
    requires n < 16
  {
    "0123456789abcdef"[n]
  }

  function HexValue(c: char): Option<nat>
  {
    if '0' <= c && c <= '9' then Some(c as int - '0' as int)
    else if 'a' <= c && c <= 'f' then Some(c as int - 'a' as int + 10)
    else None
  }

  lemma HexDigitValue(n: nat)
    requires n < 16
    ensures HexValue(HexDigit(n)) == Some(n)
  {
  }

  /** The control characters with a one-letter C escape. */
  const NAMED_CONTROLS: string := "\U{7}\U{8}\U{c}\n\r\t\U{b}"

  /** The letter that names a control character's escape. */
  function EscapeLetter(c: char): (l: char)
    requires c in NAMED_CONTROLS
    ensures NamedEscape(l) == Some(c)
  {
    if c == '\U{7}' then 'a'
    else if c == '\U{8}' then 'b'
    else if c == '\U{c}' then 'f'
    else if c == '\n' then 'n'
    else if c == '\r' then 'r'
    else if c == '\t' then 't'
    else 'v'
  }

  /** One character as `strconv.Quote` writes it: a quote or a backslash behind a backslash, a
   *  printable character as it is, the seven C escapes by name, any other control character as
   *  `\xHH`, and a C1 control character as `\u00HH`. */
  function EscapeChar(c: char): (r: string)
    ensures r == [c] <==> c != '"' && c != '\\' && Printable(c)
    ensures |r| >= 2 ==> r[0] == '\\'
  {
    if c == '"' || c == '\\' then ['\\', c]
    else if Printable(c) then [c]
    else if c in NAMED_CONTROLS then ['\\', EscapeLetter(c)]
    else if c < ' ' || c == '\U{7f}' then ['\\', 'x', HexDigit(c as int / 16), HexDigit(c as int % 16)]
    else ['\\', 'u', '0', '0', HexDigit(c as int / 16), HexDigit(c as int % 16)]
  }

  /** Every character of `s` escaped in turn. */
  function Escapes(s: string): (r: string)
    ensures |r| >= |s|
    ensures (forall i :: 0 <= i < |s| ==> s[i] != '"' && s[i] != '\\' && Printable(s[i])) ==> r == s
    decreases |s|
  {
    if s == "" then ""
    else EscapeChar(s[0]) + Escapes(s[1..])
  }

  /** The character a one-letter escape stands for, as `strconv.UnquoteChar` reads it. */
  function NamedEscape(e: char): Option<char>
  {
    match e
    case 'a' => Some('\U{7}')
    case 'b' => Some('\U{8}')
    case 'f' => Some('\U{c}')
    case 'n' => Some('\n')
    case 'r' => Some('\r')
    case 't' => Some('\t')
    case 'v' => Some('\U{b}')
    case '"' => Some('"')
    case '\\' => Some('\\')
    case _ => None
  }

  /** Two hexadecimal digits at the front of `t`, as a character. */
  function Hex2(t: string): Option<char>
  {
    if |t| < 2 || HexValue(t[0]).None? || HexValue(t[1]).None? then None
    else Some((HexValue(t[0]).value * 16 + HexValue(t[1]).value) as char)
  }

  /** The inside of a double-quoted Go string read back (`strconv.Unquote` for the escapes `%q`
   *  writes): `None` for an escape it does not accept. */
  function Unescape(r: string): (s: Option<string>)
    decreases |r|
  {
    if r == "" then Some("")
    else if r[0] != '\\' then Prepend(r[0], Unescape(r[1..]))
    else if |r| < 2 then None
    else if NamedEscape(r[1]).Some? then Prepend(NamedEscape(r[1]).value, Unescape(r[2..]))
    else if r[1] == 'x' && Hex2(r[2..]).Some? then Prepend(Hex2(r[2..]).value, Unescape(r[4..]))
    else if r[1] == 'u' && |r| >= 6 && r[2] == '0' && r[3] == '0' && Hex2(r[4..]).Some? then
      Prepend(Hex2(r[4..]).value, Unescape(r[6..]))
    else None
  }

  function Prepend(c: char, s: Option<string>): Option<string>
  {
    if s.Some? then Some([c] + s.value) else None
  }

  /** `strconv.Unquote` of a double-quoted string. */
  function Unquote(r: string): Option<string>
  {
    if |r| < 2 || r[0] != '"' || r[|r| - 1] != '"' then None else Unescape(r[1..|r| - 1])
  }

  /** Reading one escaped character back gives the character, and then reads on after it. */
  lemma UnescapeChar(c: char, rest: string)
    ensures Unescape(EscapeChar(c) + rest) == Prepend(c, Unescape(rest))
  {
    if c == '"' || c == '\\' {
      UnescapeNamed(c, rest);
    } else if Printable(c) {
      UnescapePlain(c, rest);
    } else if c in NAMED_CONTROLS {
      UnescapeNamed(EscapeLetter(c), rest);
    } else if c < ' ' || c == '\U{7f}' {
      var h := [HexDigit(c as int / 16), HexDigit(c as int % 16)];
      assert EscapeChar(c) + rest == ['\\', 'x'] + [] + h + rest;
      UnescapeHex(c, 'x', [], rest);
    } else {
      assert c as int < 256;
      var h := [HexDigit(c as int / 16), HexDigit(c as int % 16)];
      assert EscapeChar(c) + rest == ['\\', 'u'] + ['0', '0'] + h + rest;
      UnescapeHex(c, 'u', ['0', '0'], rest);
    }
  }

  lemma UnescapePlain(c: char, rest: string)
    requires c != '\\'
    ensures Unescape([c] + rest) == Prepend(c, Unescape(rest))
  {
    assert ([c] + rest)[1..] == rest;
  }

  lemma UnescapeNamed(e: char, rest: string)
    requires NamedEscape(e).Some?
    ensures Unescape(['\\', e] + rest) == Prepend(NamedEscape(e).value, Unescape(rest))
  {
    assert (['\\', e] + rest)[2..] == rest;
  }

  lemma UnescapeHex(c: char, kind: char, zeros: string, rest: string)
    requires c as int < 256 && NamedEscape(kind).None?
    requires (kind == 'x' && zeros == []) || (kind == 'u' && zeros == ['0', '0'])
    ensures Unescape(['\\', kind] + zeros + [HexDigit(c as int / 16), HexDigit(c as int % 16)] + rest) == Prepend(c, Unescape(rest))
  {
    var r := ['\\', kind] + zeros + [HexDigit(c as int / 16), HexDigit(c as int % 16)] + rest;
    var k := 2 + |zeros|;
    HexCharRoundTrip(c, r[k..]);
    assert r[k + 2..] == rest;
  }

  lemma HexCharRoundTrip(c: char, t: string)
    requires c as int < 256
    requires |t| >= 2 && t[0] == HexDigit(c as int / 16) && t[1] == HexDigit(c as int % 16)
    ensures Hex2(t) == Some(c)
  {
    HexDigitValue(c as int / 16);
    HexDigitValue(c as int % 16);
  }

  /** Every text `Escapes` writes reads back as that text. */
  lemma {:induction false} EscapesRoundTrip(s: string)
    ensures Unescape(Escapes(s)) == Some(s)
    decreases |s|
  {
    if s != "" {
      EscapesRoundTrip(s[1..]);
      UnescapeChar(s[0], Escapes(s[1..]));
      assert [s[0]] + s[1..] == s;
    }
  }

  lemma QuoteRoundTrip(s: string)
    ensures Unquote("\"" + Escapes(s) + "\"") == Some(s)
  {
    var r := "\"" + Escapes(s) + "\"";
    assert r[1..|r| - 1] == Escapes(s);
    EscapesRoundTrip(s);
  }

  /** `checkSemVer`: a version that does not parse, or whose major number is not the one
   *  handled, gives one message; otherwise none. */
  function CheckSemVer(version: string, parse: string -> Result<nat, string>): (msgs: seq<string>)
    ensures |msgs| <= 1
    ensures msgs == [] <==> parse(version) == Success(VERSION_MAJOR)
    ensures parse(version).Failure? ==> msgs == [Quoted(version) + " is not a valid SemVer: " + parse(version).error]
    ensures parse(version).Success? && parse(version).value != VERSION_MAJOR ==>
              msgs == ["validate currently only handles version " + Decimal(VERSION_MAJOR) + ".*, but the supplied configuration targets " + version]
  {
    var parsed := parse(version);
    if parsed.Failure? then [Quoted(version) + " is not a valid SemVer: " + parsed.error]
    else if parsed.value != VERSION_MAJOR then
      ["validate currently only handles version " + Decimal(VERSION_MAJOR) + ".*, but the supplied configuration targets " + version]
    else []
  }

  /** `ValidateBundle`: the bundle directory, then `config.json` being there, being UTF-8 and
   *  being JSON, then the platform, mandatory-field and version messages all together. */
  function ValidateBundle(bundlePath: string, bundleExists: bool, config: FileRead<Oci.Spec>,
                          checks: Oci.Spec -> seq<string>, parse: string -> Result<nat, string>): (r: Result<Oci.Spec, ConfigError>)
    ensures !bundleExists ==> r == Failure(MissingBundle(bundlePath))
    ensures bundleExists && config.Unreadable? ==> r == Failure(MissingBundleConfig(bundlePath))
    ensures bundleExists && config.Read? && !config.validUtf8 ==> r == Failure(BundleConfigInvalidEncoding(bundlePath))
    ensures bundleExists && config.Read? && config.validUtf8 && config.json.Failure? ==>
              r == Failure(BundleConfigInvalidJSON(bundlePath, config.json.error))
    ensures r.Success? <==>
              bundleExists && config.Read? && config.validUtf8 && config.json.Success?
              && checks(config.json.value) == [] && parse(config.json.value.version) == Success(VERSION_MAJOR)
    ensures r.Success? ==> r.value == config.json.value
    ensures r.Failure? && r.error.BundleConfigValidation? ==>
              r.error == BundleConfigValidation(bundlePath, checks(config.json.value) + CheckSemVer(config.json.value.version, parse))
  {
    if !bundleExists then Failure(MissingBundle(bundlePath))
    else if config.Unreadable? then Failure(MissingBundleConfig(bundlePath))
    else if !config.validUtf8 then Failure(BundleConfigInvalidEncoding(bundlePath))
    else if config.json.Failure? then Failure(BundleConfigInvalidJSON(bundlePath, config.json.error))
    else
      var spec := config.json.value;
      var msgs := checks(spec) + CheckSemVer(spec.version, parse);
      if |msgs| != 0 then Failure(BundleConfigValidation(bundlePath, msgs)) else Success(spec)
  }

  /** The overrides a caller passes: every non-empty field replaces the one read. */
  function Merge(p: Oci.Process, overrides: Option<Oci.Process>): (r: Oci.Process)
    ensures overrides.None? ==> r == p
  {
    if overrides.None? then p
    else
      var o := overrides.value;
      Oci.Process(
        if |o.args| > 0 then o.args else p.args,
        if |o.env| > 0 then o.env else p.env,
        if o.cwd != "" then o.cwd else p.cwd,
        if o.username != "" then o.username else p.username)
  }

  /** Overriding keeps what the override leaves empty, takes what it sets, and applying the same
   *  override twice changes nothing more. */
  lemma MergeFieldwise(p: Oci.Process, o: Oci.Process)
    ensures var r := Merge(p, Some(o));
            (o.cwd == "" ==> r.cwd == p.cwd) && (o.cwd != "" ==> r.cwd == o.cwd)
            && (o.args == [] ==> r.args == p.args) && (o.args != [] ==> r.args == o.args)
            && (o.env == [] ==> r.env == p.env) && (o.env != [] ==> r.env == o.env)
            && (o.username == "" ==> r.username == p.username) && (o.username != "" ==> r.username == o.username)
    ensures Merge(Merge(p, Some(o)), Some(o)) == Merge(p, Some(o))
    ensures Merge(p, Some(Oci.Process([], [], "", ""))) == p
  {
  }

  /** `envValid`: splitting at '=' gives at least two pieces. */
  function EnvValid(env: string): (b: bool)
    ensures b <==> '=' in env
  {
    SplitShape(env, '=');
    |Split(env, '=')| >= 2
  }

  const ARGS_EMPTY: string := "args must not be empty"

  function CwdMessage(cwd: string): string { "cwd " + Quoted(cwd) + " is not an absolute path" }

  function EnvMessage(env: string): string { "env " + Quoted(env) + " should be in the form of 'key=value'." }

  /** One message per entry that fails `valid`, in order. */
  function EnvMessages(env: seq<string>, valid: string -> bool, message: string -> string): (msgs: seq<string>)
    ensures |msgs| <= |env|
    ensures msgs == [] <==> forall i :: 0 <= i < |env| ==> valid(env[i])
    decreases |env|
  {
    if env == [] then []
    else
      var rest := EnvMessages(env[1..], valid, message);
      assert forall i :: 1 <= i < |env| ==> env[i] == env[1..][i - 1];
      if valid(env[0]) then rest else [message(env[0])] + rest
  }

  /** The messages are exactly those of the entries that fail `valid`. */
  lemma {:induction false} EnvMessagesContents(env: seq<string>, valid: string -> bool, message: string -> string)
    ensures forall i :: 0 <= i < |env| && !valid(env[i]) ==> message(env[i]) in EnvMessages(env, valid, message)
    ensures forall m :: m in EnvMessages(env, valid, message) ==> exists i :: 0 <= i < |env| && !valid(env[i]) && m == message(env[i])
    decreases |env|
  {
    if env != [] {
      var rest := EnvMessages(env[1..], valid, message);
      EnvMessagesContents(env[1..], valid, message);
      assert forall i :: 1 <= i < |env| ==> env[i] == env[1..][i - 1];
      forall m | m in EnvMessages(env, valid, message)
        ensures exists i :: 0 <= i < |env| && !valid(env[i]) && m == message(env[i])
      {
        if m in rest {
          var j :| 0 <= j < |env[1..]| && !valid(env[1..][j]) && m == message(env[1..][j]);
          assert env[j + 1] == env[1..][j];
        } else {
          assert !valid(env[0]) && m == message(env[0]);
        }
      }
    }
  }

  /** Every violation of a process, not just the first: a relative cwd, no arguments, and each
   *  environment entry without '='. */
  function ProcessMessages(p: Oci.Process): (msgs: seq<string>)
    ensures msgs == [] <==> WinPath.IsAbs(p.cwd) && |p.args| > 0 && forall i :: 0 <= i < |p.env| ==> EnvValid(p.env[i])
    ensures CwdMessage(p.cwd) in msgs <==> !WinPath.IsAbs(p.cwd)
    ensures ARGS_EMPTY in msgs <==> |p.args| == 0
    ensures forall i :: 0 <= i < |p.env| && !EnvValid(p.env[i]) ==> EnvMessage(p.env[i]) in msgs
  {
    var env := EnvMessages(p.env, EnvValid, EnvMessage);
    EnvMessagesContents(p.env, EnvValid, EnvMessage);
    var cwd := if WinPath.IsAbs(p.cwd) then [] else [CwdMessage(p.cwd)];
    var args := if |p.args| == 0 then [ARGS_EMPTY] else [];
    NotAnEnvMessage(CwdMessage(p.cwd), p.env);
    NotAnEnvMessage(ARGS_EMPTY, p.env);
    assert CwdMessage(p.cwd) != ARGS_EMPTY by { assert CwdMessage(p.cwd)[0] != ARGS_EMPTY[0]; }
    cwd + args + env
  }

  /** A message that does not start as an environment message is not among them. */
  lemma NotAnEnvMessage(m: string, env: seq<string>)
    requires |m| > 0 && m[0] != 'e'
    ensures m !in EnvMessages(env, EnvValid, EnvMessage)
  {
    EnvMessagesContents(env, EnvValid, EnvMessage);
  }

  /** `ValidateProcess`: without a process file the cwd defaults to C:\; with one it must be
   *  there, UTF-8 and JSON. The overrides are merged, the cwd is put in Windows form, and
   *  every violation is reported at once. */
  function ValidateProcess(processConfig: string, file: FileRead<Oci.Process>, overrides: Option<Oci.Process>): (r: Result<Oci.Process, ConfigError>)
    ensures processConfig != "" && file.Unreadable? ==> r == Failure(MissingProcessConfig(processConfig))
    ensures processConfig != "" && file.Read? && !file.validUtf8 ==> r == Failure(ProcessConfigInvalidEncoding(processConfig))
    ensures processConfig != "" && file.Read? && file.validUtf8 && file.json.Failure? ==>
              r == Failure(ProcessConfigInvalidJSON(processConfig, file.json.error))
    ensures r.Failure? && r.error.ProcessConfigValidation? ==> r.error.messages != []
    ensures r.Success? ==> WinPath.IsAbs(r.value.cwd) && |r.value.args| > 0
                           && forall i :: 0 <= i < |r.value.env| ==> '=' in r.value.env[i]
    ensures processConfig == "" ==>
              var merged := Merge(Oci.Process([], [], DEFAULT_CWD, ""), overrides);
              var p := merged.(cwd := ContainerSetup.DestToWindowsPath(merged.cwd));
              r == (if ProcessMessages(p) == [] then Success(p) else Failure(ProcessConfigValidation(ProcessMessages(p))))
    ensures processConfig != "" && file.Read? && file.validUtf8 && file.json.Success? ==>
              var merged := Merge(file.json.value, overrides);
              var p := merged.(cwd := ContainerSetup.DestToWindowsPath(merged.cwd));
              (r.Success? <==> WinPath.IsAbs(p.cwd) && |p.args| > 0 && forall i :: 0 <= i < |p.env| ==> EnvValid(p.env[i]))
              && (r.Success? ==> r.value == p)
              && (r.Failure? ==> r == Failure(ProcessConfigValidation(ProcessMessages(p))))
  {
    var read :=
      if processConfig == "" then Success(Oci.Process([], [], DEFAULT_CWD, ""))
      else if file.Unreadable? then Failure(MissingProcessConfig(processConfig))
      else if !file.validUtf8 then Failure(ProcessConfigInvalidEncoding(processConfig))
      else if file.json.Failure? then Failure(ProcessConfigInvalidJSON(processConfig, file.json.error))
      else Success(file.json.value);
    if read.Failure? then Failure(read.error)
    else
      var merged := Merge(read.value, overrides);
      var p := merged.(cwd := ContainerSetup.DestToWindowsPath(merged.cwd));
      var msgs := ProcessMessages(p);
      if msgs != [] then Failure(ProcessConfigValidation(msgs)) else Success(p)
  }

  /** `toWindowsPath("/")` is the root of drive C:, and so is the default cwd. */
  lemma RootIsSystemDrive()
    ensures ContainerSetup.DestToWindowsPath("/") == DEFAULT_CWD
    ensures ContainerSetup.DestToWindowsPath(DEFAULT_CWD) == DEFAULT_CWD
  {
    var p := "C:" + "/";
    assert WinPath.VolumeNameLen(p) == 2 && p[2..] == "/" && p[..2] == "C:";
    assert WinPath.VolumeNameLen(DEFAULT_CWD) == 2 && DEFAULT_CWD[2..] == "\\" && DEFAULT_CWD[..2] == "C:";
    SegmentsOfRoot();
    assert WinPath.Resolve(["", ""], true, []) == [];
  }

  lemma SegmentsOfRoot()
    ensures WinPath.Segments("/") == ["", ""]
    ensures WinPath.Segments("\\") == ["", ""]
  {
    assert WinPath.FromSlash("/") == "\\";
    assert WinPath.FromSlash("\\") == "\\";
    IndexOfFirst("\\", '\\', 0);
    assert "\\"[1..] == "";
  }

  /** With no process file and no cwd override, the cwd is C:\. */
  lemma DefaultCwd(overrides: Option<Oci.Process>)
    requires overrides.None? || overrides.value.cwd == ""
    ensures var r := ValidateProcess("", Unreadable, overrides); r.Success? ==> r.value.cwd == DEFAULT_CWD
  {
    RootIsSystemDrive();
  }
}
