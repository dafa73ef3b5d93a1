/** The stand-alone `winc-network` command of the netsh era: it reads its flags, and either brings a
 *  container's network up — reserving its two fixed ports, opening its outbound firewall rules and
 *  setting its MTU — or deletes the container's firewall rule. */
module WincNetwork {
  import opened Wrappers
  import opened Errors
  import opened Text
  import Host
  import NetRules
  import NetshApplier

  datatype Args = Args(action: string, handle: string, configFile: string)

  /** The endpoint as the command reads it: its address and its policies after decoding. */
  datatype Endpoint = Endpoint(ipAddress: NetRules.IPv4, policies: seq<Result<NetshApplier.NatPolicy, Error>>)

  /** What the command's collaborators answer: the container's statistics (the ids of the network
   *  endpoints it lists), the HNS endpoint lookup, the local IP, the exit code of a process run
   *  in the container, and the outcome of `netsh` on the host. */
  datatype Env = Env(
    statistics: Result<seq<string>, Error>,
    endpointById: string -> Result<Endpoint, Error>,
    localIP: Result<string, Error>,
    process: string -> Result<int, Error>,
    netsh: seq<string> -> Outcome<Error>)

  datatype Step = Statistics | GetEndpoint(endpointId: string) | LocalIP | Process(commandLine: string) | Netsh(args: seq<string>)

  datatype Ran<+T> = Ran(result: T, steps: seq<Step>)

  datatype UpInputs = UpInputs(netOut: seq<NetRules.NetOut>, netIn: seq<NetRules.NetIn>)

  /** `UpOutputs.Properties`; the mapped ports are kept as the list `json.Marshal` encodes. */
  datatype UpOutputs = UpOutputs(containerIP: string, deprecatedHostIP: string, mappedPorts: seq<NetRules.PortMapping>)

  const MAX_MTU: int := 1500

  // ---------------------------------------------------------------------------------------
  // Flags
  // ---------------------------------------------------------------------------------------

  /** `parseArgs`: a flag-syntax error first, then the handle, then the action are required. */
  function ParseArgs(flags: Result<Args, Error>): (r: Result<Args, Error>)
    ensures r.Success? <==> flags.Success? && flags.value.handle != "" && flags.value.action != ""
    ensures r.Success? ==> r == flags
    ensures flags.Success? && flags.value.handle == "" ==> r == Failure(Msg("missing required flag 'handle'"))
    ensures flags.Success? && flags.value.handle != "" && flags.value.action == "" ==>
              r == Failure(Msg("missing required flag 'action'"))
  {
    if flags.Failure? then Failure(flags.error)
    else if flags.value.handle == "" then Failure(Msg("missing required flag 'handle'"))
    else if flags.value.action == "" then Failure(Msg("missing required flag 'action'"))
    else flags
  }

  // ---------------------------------------------------------------------------------------
  // Processes in the container
  // ---------------------------------------------------------------------------------------

  function OpenPortCommand(port: NetRules.Uint32): string
  {
    "netsh http add urlacl " + ("url=http://*:" + Decimal(port) + "/") + " user=Users"
  }

  /** The command line reserves the URL the netsh applier reserves, for the same group. */
  lemma OpenPortCommandIsApplierArgs(port: NetRules.Uint32)
    ensures OpenPortCommand(port) == "netsh http add urlacl " + Host.OpenPortArgs(port)[3] + " " + Host.OpenPortArgs(port)[4]
  {
    assert " " + "user=Users" == " user=Users";
  }

  /** A process in the container: its error, or the error a non-zero exit code stands for. */
  function RunProcess(commandLine: string, exitError: Error, env: Env): (out: Ran<Outcome<Error>>)
    ensures out.steps == [Process(commandLine)]
    ensures out.result.Pass? <==> env.process(commandLine) == Success(0)
    ensures env.process(commandLine).Success? && out.result.Fail? ==> out.result.error == exitError
  {
    var ran := env.process(commandLine);
    Ran(if ran.Failure? then Fail(ran.error) else if ran.value != 0 then Fail(exitError) else Pass, [Process(commandLine)])
  }

  /** `openPort`. */
  function OpenPort(port: NetRules.Uint32, env: Env): (out: Ran<Outcome<Error>>)
    ensures out.steps == [Process(OpenPortCommand(port))]
    ensures out.result.Pass? <==> env.process(OpenPortCommand(port)) == Success(0)
    ensures env.process(OpenPortCommand(port)).Success? && out.result.Fail? ==>
              out.result.error == Msg("failed to open port: " + Decimal(port))
  {
    RunProcess(OpenPortCommand(port), Msg("failed to open port: " + Decimal(port)), env)
  }

  /** The container adapter's name: the endpoint id up to its first '-'. */
  function InterfaceName(endpointId: string): string
  {
    Host.VEthernet("Container NIC " + Split(endpointId, '-')[0])
  }

  function MtuCommand(endpointId: string, mtu: int): string
  {
    "netsh interface ipv4 set subinterface " + ("\"" + InterfaceName(endpointId) + "\"") + " mtu=" + IntDecimal(mtu) + " store=persistent"
  }

  /** The command line names the adapter as the netsh applier quotes it outside insider-preview mode. */
  lemma MtuCommandIsApplierArgs(endpointId: string, mtu: int)
    ensures MtuCommand(endpointId, mtu)
            == "netsh interface ipv4 set subinterface " + NetshApplier.ContainerInterface(RuleOwner(endpointId), endpointId)
               + " mtu=" + IntDecimal(mtu) + " store=persistent"
  {
  }

  /** `setMTU`: zero leaves the adapter alone; above 1500 is refused before anything runs. */
  function SetMTU(endpointId: string, mtu: int, env: Env): (out: Ran<Outcome<Error>>)
    ensures mtu == 0 ==> out == Ran(Pass, [])
    ensures mtu > MAX_MTU ==> out == Ran(Fail(Msg("invalid mtu specified: " + IntDecimal(mtu))), [])
    ensures mtu != 0 && mtu <= MAX_MTU ==>
              out.steps == [Process(MtuCommand(endpointId, mtu))]
              && (out.result.Pass? <==> env.process(MtuCommand(endpointId, mtu)) == Success(0))
  {
    if mtu == 0 then Ran(Pass, [])
    else if mtu > MAX_MTU then Ran(Fail(Msg("invalid mtu specified: " + IntDecimal(mtu))), [])
    else RunProcess(MtuCommand(endpointId, mtu), Msg("failed to set mtu: " + IntDecimal(mtu)), env)
  }

  // ---------------------------------------------------------------------------------------
  // Net-in
  // ---------------------------------------------------------------------------------------

  /** `%+v` of a net-in rule. */
  function InvalidPortMapping(rule: NetRules.NetIn): Error
  {
    Msg("invalid port mapping: {HostPort:" + Decimal(rule.hostPort) + " ContainerPort:" + Decimal(rule.containerPort) + "}")
  }

  /** The port reservations of a run of rules that all got through. */
  function OpenSteps(rules: seq<NetRules.NetIn>): (s: seq<Step>)
    ensures |s| == |rules| && forall k :: 0 <= k < |rules| ==> s[k] == Process(OpenPortCommand(rules[k].containerPort))
  {
    seq(|rules|, k requires 0 <= k < |rules| => Process(OpenPortCommand(rules[k].containerPort)))
  }

  /** Whether a rule gets through the net-in loop: a fixed container port, no host port, a policy
   *  scan that ends without a decode error, and a port reservation that exits with 0. */
  predicate NetInPasses(rule: NetRules.NetIn, ep: Endpoint, env: Env)
  {
    NetshApplier.ValidNetIn(rule) && NetshApplier.FindMapping(ep.policies, rule.containerPort).Success?
    && env.process(OpenPortCommand(rule.containerPort)) == Success(0)
  }

  /** The index of the first rule that does not get through, or the number of rules. */
  function FirstFailedIn(rules: seq<NetRules.NetIn>, ep: Endpoint, env: Env): (i: nat)
    ensures i <= |rules|
    ensures forall k :: 0 <= k < i ==> NetInPasses(rules[k], ep, env)
    ensures i < |rules| ==> !NetInPasses(rules[i], ep, env)
    decreases |rules|
  {
    if |rules| == 0 || !NetInPasses(rules[0], ep, env) then 0
    else 1 + FirstFailedIn(rules[1..], ep, env)
  }

  /** Whether the endpoint's policies hold a NAT mapping for the container port. */
  predicate Finds(policies: seq<Result<NetshApplier.NatPolicy, Error>>, port: NetRules.Uint32)
  {
    NetshApplier.FindMapping(policies, port).Success? && NetshApplier.FindMapping(policies, port).value.Some?
  }

  /** The mappings the endpoint's policies give a run of rules, in rule order; a rule without a
   *  matching policy contributes none. */
  function Mapped(rules: seq<NetRules.NetIn>, policies: seq<Result<NetshApplier.NatPolicy, Error>>): seq<NetRules.PortMapping>
    decreases |rules|
  {
    if |rules| == 0 then []
    else
      (if Finds(policies, rules[0].containerPort) then [NetshApplier.FindMapping(policies, rules[0].containerPort).value.value] else [])
      + Mapped(rules[1..], policies)
  }

  /** The net-in loop: each rule is checked, its NAT policy looked up, and its container port
   *  reserved whether or not a policy matched; the first error ends the loop. */
  function NetInLoop(rules: seq<NetRules.NetIn>, ep: Endpoint, env: Env): (out: Ran<Result<seq<NetRules.PortMapping>, Error>>)
    ensures out.result.Success? <==> forall k :: 0 <= k < |rules| ==> NetInPasses(rules[k], ep, env)
    ensures out.result.Success? ==> out.steps == OpenSteps(rules) && out.result.value == Mapped(rules, ep.policies)
    ensures out.result.Failure? ==>
              var i := FirstFailedIn(rules, ep, env);
              i < |rules| && OpenSteps(rules[..i]) <= out.steps && |out.steps| <= i + 1
              && (!NetshApplier.ValidNetIn(rules[i]) ==> out.result.error == InvalidPortMapping(rules[i]))
              && (|out.steps| == i + 1 <==>
                    NetshApplier.ValidNetIn(rules[i]) && NetshApplier.FindMapping(ep.policies, rules[i].containerPort).Success?)
  {
    var i := FirstFailedIn(rules, ep, env);
    if i == |rules| then Ran(Success(Mapped(rules, ep.policies)), OpenSteps(rules))
    else
      var rule := rules[i];
      var before := OpenSteps(rules[..i]);
      if !NetshApplier.ValidNetIn(rule) then Ran(Failure(InvalidPortMapping(rule)), before)
      else
        var found := NetshApplier.FindMapping(ep.policies, rule.containerPort);
        if found.Failure? then Ran(Failure(found.error), before)
        else
          var reserved := OpenPort(rule.containerPort, env);
          Ran(Failure(reserved.result.error), before + reserved.steps)
  }

  /** A found mapping maps the port it was looked up for. */
  lemma FoundMapsPort(policies: seq<Result<NetshApplier.NatPolicy, Error>>, port: NetRules.Uint32)
    requires NetshApplier.FindMapping(policies, port).Success? && NetshApplier.FindMapping(policies, port).value.Some?
    ensures NetshApplier.FindMapping(policies, port).value.value.containerPort == port
  {
  }

  /** Every reported mapping is the policy found for one of the rules, there are never more of
   *  them than rules, and there are as many exactly when every rule found its policy. */
  lemma MappedFromRules(rules: seq<NetRules.NetIn>, policies: seq<Result<NetshApplier.NatPolicy, Error>>)
    ensures |Mapped(rules, policies)| <= |rules|
    ensures |Mapped(rules, policies)| == |rules| <==> forall k :: 0 <= k < |rules| ==> Finds(policies, rules[k].containerPort)
    ensures forall m :: m in Mapped(rules, policies) ==>
              exists k :: 0 <= k < |rules| && NetshApplier.FindMapping(policies, rules[k].containerPort) == Success(Some(m))
  {
    MappedCount(rules, policies);
    MappedMembers(rules, policies);
  }

  /** The number of mappings: at most one per rule, one for each exactly when all rules find. */
  lemma {:induction false} MappedCount(rules: seq<NetRules.NetIn>, policies: seq<Result<NetshApplier.NatPolicy, Error>>)
    ensures |Mapped(rules, policies)| <= |rules|
    ensures |Mapped(rules, policies)| == |rules| <==> forall k :: 0 <= k < |rules| ==> Finds(policies, rules[k].containerPort)
    decreases |rules|
  {
    if |rules| > 0 {
      var tail := rules[1..];
      MappedCount(tail, policies);
      assert |Mapped(rules, policies)| == (if Finds(policies, rules[0].containerPort) then 1 else 0) + |Mapped(tail, policies)|;
      if forall k :: 0 <= k < |rules| ==> Finds(policies, rules[k].containerPort) {
        forall k | 0 <= k < |tail|
          ensures Finds(policies, tail[k].containerPort)
        {
          assert tail[k] == rules[k + 1];
        }
      } else if Finds(policies, rules[0].containerPort) {
        var k :| 0 <= k < |rules| && !Finds(policies, rules[k].containerPort);
        assert tail[k - 1] == rules[k];
      }
    }
  }

  /** Each mapping is the policy some rule found. */
  lemma {:induction false} MappedMembers(rules: seq<NetRules.NetIn>, policies: seq<Result<NetshApplier.NatPolicy, Error>>)
    ensures forall m :: m in Mapped(rules, policies) ==>
              exists k :: 0 <= k < |rules| && NetshApplier.FindMapping(policies, rules[k].containerPort) == Success(Some(m))
    decreases |rules|
  {
    if |rules| > 0 {
      var tail := rules[1..];
      MappedMembers(tail, policies);
      var head: seq<NetRules.PortMapping> :=
        if Finds(policies, rules[0].containerPort) then [NetshApplier.FindMapping(policies, rules[0].containerPort).value.value] else [];
      assert Mapped(rules, policies) == head + Mapped(tail, policies);
      forall m | m in Mapped(rules, policies)
        ensures exists k :: 0 <= k < |rules| && NetshApplier.FindMapping(policies, rules[k].containerPort) == Success(Some(m))
      {
        if m in head {
          assert NetshApplier.FindMapping(policies, rules[0].containerPort) == Success(Some(m));
        } else {
          var k :| 0 <= k < |tail| && NetshApplier.FindMapping(policies, tail[k].containerPort) == Success(Some(m));
          assert tail[k] == rules[k + 1];
        }
      }
    }
  }

  /** When every rule finds its policy, the k-th mapping is the k-th rule's and maps that rule's
   *  container port. */
  lemma {:induction false} MappedInRuleOrder(rules: seq<NetRules.NetIn>, policies: seq<Result<NetshApplier.NatPolicy, Error>>, k: nat)
    requires forall j :: 0 <= j < |rules| ==> Finds(policies, rules[j].containerPort)
    requires k < |rules|
    ensures k < |Mapped(rules, policies)|
    ensures Success(Some(Mapped(rules, policies)[k])) == NetshApplier.FindMapping(policies, rules[k].containerPort)
    ensures Mapped(rules, policies)[k].containerPort == rules[k].containerPort
    decreases k
  {
    MappedFromRules(rules, policies);
    var tail := rules[1..];
    assert Finds(policies, rules[0].containerPort);
    assert Mapped(rules, policies) == [NetshApplier.FindMapping(policies, rules[0].containerPort).value.value] + Mapped(tail, policies);
    if k > 0 {
      forall j | 0 <= j < |tail|
        ensures Finds(policies, tail[j].containerPort)
      {
        assert tail[j] == rules[j + 1];
      }
      MappedInRuleOrder(tail, policies, k - 1);
      assert tail[k - 1] == rules[k];
    }
    FoundMapsPort(policies, rules[k].containerPort);
  }

  // ---------------------------------------------------------------------------------------
  // Net-out
  // ---------------------------------------------------------------------------------------

  function RuleOwner(containerId: string): NetshApplier.Applier
  {
    NetshApplier.Applier(containerId, false, "")
  }

  /** The netsh call of a rule that needs one: every named protocol but ICMP. */
  function NetshStep(containerId: string, rule: NetRules.NetOut, ip: NetRules.IPv4): (s: seq<Step>)
    requires rule.protocol in Host.FIREWALL_PROTOCOL
    ensures |s| <= 1 && (|s| == 0 <==> rule.protocol == NetRules.PROTOCOL_ICMP)
  {
    if rule.protocol == NetRules.PROTOCOL_ICMP then [] else [Netsh(NetshApplier.OutArgs(RuleOwner(containerId), rule, ip))]
  }

  /** The netsh calls of a run of rules with named protocols. */
  function NetshSteps(containerId: string, rules: seq<NetRules.NetOut>, ip: NetRules.IPv4): (s: seq<Step>)
    requires forall k :: 0 <= k < |rules| ==> rules[k].protocol in Host.FIREWALL_PROTOCOL
    ensures |s| <= |rules|
    decreases |rules|
  {
    if |rules| == 0 then [] else NetshStep(containerId, rules[0], ip) + NetshSteps(containerId, rules[1..], ip)
  }

  /** Whether a rule gets through the net-out loop. */
  predicate NetOutPasses(containerId: string, rule: NetRules.NetOut, ip: NetRules.IPv4, env: Env)
  {
    rule.protocol in Host.FIREWALL_PROTOCOL
    && (rule.protocol != NetRules.PROTOCOL_ICMP ==> env.netsh(NetshApplier.OutArgs(RuleOwner(containerId), rule, ip)).Pass?)
  }

  /** The index of the first rule that does not get through, or the number of rules. */
  function FirstFailedOut(containerId: string, rules: seq<NetRules.NetOut>, ip: NetRules.IPv4, env: Env): (i: nat)
    ensures i <= |rules|
    ensures forall k :: 0 <= k < i ==> NetOutPasses(containerId, rules[k], ip, env)
    ensures i < |rules| ==> !NetOutPasses(containerId, rules[i], ip, env)
    decreases |rules|
  {
    if |rules| == 0 || !NetOutPasses(containerId, rules[0], ip, env) then 0
    else 1 + FirstFailedOut(containerId, rules[1..], ip, env)
  }

  /** The net-out loop: ICMP rules are skipped, an unnamed protocol is refused, and every other
   *  rule becomes one `advfirewall` rule on the host; the first error ends the loop. */
  function NetOutLoop(containerId: string, rules: seq<NetRules.NetOut>, ip: NetRules.IPv4, env: Env): (out: Ran<Outcome<Error>>)
    ensures out.result.Pass? <==> forall k :: 0 <= k < |rules| ==> NetOutPasses(containerId, rules[k], ip, env)
    ensures out.result.Pass? ==> out.steps == NetshSteps(containerId, rules, ip)
    ensures out.result.Fail? ==>
              var i := FirstFailedOut(containerId, rules, ip, env);
              i < |rules|
              && (rules[i].protocol !in Host.FIREWALL_PROTOCOL ==>
                    out == Ran(Fail(Msg("invalid protocol")), NetshSteps(containerId, rules[..i], ip)))
              && (rules[i].protocol in Host.FIREWALL_PROTOCOL ==>
                    out.steps == NetshSteps(containerId, rules[..i], ip) + NetshStep(containerId, rules[i], ip)
                    && out.result == env.netsh(NetshApplier.OutArgs(RuleOwner(containerId), rules[i], ip)))
  {
    var i := FirstFailedOut(containerId, rules, ip, env);
    var before := NetshSteps(containerId, rules[..i], ip);
    if i == |rules| then
      assert rules[..i] == rules;
      Ran(Pass, before)
    else if rules[i].protocol !in Host.FIREWALL_PROTOCOL then Ran(Fail(Msg("invalid protocol")), before)
    else
      var args := NetshApplier.OutArgs(RuleOwner(containerId), rules[i], ip);
      Ran(env.netsh(args), before + [Netsh(args)])
  }

  /** A rule with a named protocol is run exactly as the netsh applier's `Out` runs it, on the
   *  host and with the same arguments. */
  lemma NetOutRuleAgreesWithApplier(containerId: string, rule: NetRules.NetOut, ip: NetRules.IPv4, env: Env, h: Host.Answers)
    requires rule.protocol in Host.FIREWALL_PROTOCOL
    requires forall args :: env.netsh(args).Pass? <==> h.runHost(args).Success?
    ensures var theirs := NetshApplier.Out(RuleOwner(containerId), rule, ip, h);
            var ours := NetOutLoop(containerId, [rule], ip, env);
            (ours.result.Pass? <==> theirs.result.Pass?)
            && |ours.steps| == |theirs.calls|
            && forall k :: 0 <= k < |ours.steps| ==> theirs.calls[k].RunHost? && ours.steps[k] == Netsh(theirs.calls[k].args)
  {
    assert [rule][..0] == [];
    assert [rule][1..] == [];
  }

  // ---------------------------------------------------------------------------------------
  // Up and down
  // ---------------------------------------------------------------------------------------

  /** `networkUp`. The checks come first, then the endpoint and the local IP, then net-in, net-out
   *  and the MTU, each ending the run at its first error. */
  function NetworkUp(containerId: string, mtu: int, inputs: Result<UpInputs, Error>, env: Env): (out: Ran<Result<UpOutputs, Error>>)
    ensures inputs.Failure? ==> out == Ran(Failure(inputs.error), [])
    ensures inputs.Success? && |inputs.value.netIn| > 2 ==>
              out == Ran(Failure(Msg("invalid number of port mappings: " + Decimal(|inputs.value.netIn|))), [])
    ensures inputs.Success? && |inputs.value.netIn| <= 2 && env.statistics.Success? && |env.statistics.value| != 1 ==>
              out == Ran(Failure(Msg("invalid number of container endpoints: " + Decimal(|env.statistics.value|))), [Statistics])
    ensures out.result.Success? ==>
              inputs.Success? && env.statistics.Success? && |env.statistics.value| == 1
              && env.endpointById(env.statistics.value[0]).Success?
              && env.localIP == Success(out.result.value.containerIP)
              && out.result.value.deprecatedHostIP == "255.255.255.255"
              && var ep := env.endpointById(env.statistics.value[0]).value;
                 out.result.value.mappedPorts == Mapped(inputs.value.netIn, ep.policies)
                 && (forall k :: 0 <= k < |inputs.value.netIn| ==> NetInPasses(inputs.value.netIn[k], ep, env))
                 && (forall k :: 0 <= k < |inputs.value.netOut| ==> NetOutPasses(containerId, inputs.value.netOut[k], ep.ipAddress, env))
                 && out.steps == [Statistics, GetEndpoint(env.statistics.value[0]), LocalIP] + OpenSteps(inputs.value.netIn)
                                 + NetshSteps(containerId, inputs.value.netOut, ep.ipAddress)
                                 + SetMTU(env.statistics.value[0], mtu, env).steps
  {
    if inputs.Failure? then Ran(Failure(inputs.error), [])
    else if |inputs.value.netIn| > 2 then Ran(Failure(Msg("invalid number of port mappings: " + Decimal(|inputs.value.netIn|))), [])
    else if env.statistics.Failure? then Ran(Failure(env.statistics.error), [Statistics])
    else if |env.statistics.value| != 1 then
      Ran(Failure(Msg("invalid number of container endpoints: " + Decimal(|env.statistics.value|))), [Statistics])
    else
      var endpointId := env.statistics.value[0];
      var endpoint := env.endpointById(endpointId);
      if endpoint.Failure? then Ran(Failure(endpoint.error), [Statistics, GetEndpoint(endpointId)])
      else
        var ep := endpoint.value;
        var ready := [Statistics, GetEndpoint(endpointId), LocalIP];
        if env.localIP.Failure? then Ran(Failure(env.localIP.error), ready)
        else
          var netIn := NetInLoop(inputs.value.netIn, ep, env);
          if netIn.result.Failure? then Ran(Failure(netIn.result.error), ready + netIn.steps)
          else
            var netOut := NetOutLoop(containerId, inputs.value.netOut, ep.ipAddress, env);
            if netOut.result.Fail? then Ran(Failure(netOut.result.error), ready + netIn.steps + netOut.steps)
            else
              var setMtu := SetMTU(endpointId, mtu, env);
              var steps := ready + netIn.steps + netOut.steps + setMtu.steps;
              if setMtu.result.Fail? then Ran(Failure(setMtu.result.error), steps)
              else Ran(Success(UpOutputs(env.localIP.value, "255.255.255.255", netIn.result.value)), steps)
  }

  /** `networkDown`: the firewall rule is deleted, and whatever netsh answers, down succeeds. */
  function NetworkDown(containerId: string, env: Env): (out: Ran<Outcome<Error>>)
    ensures out.result.Pass?
    ensures out.steps == [Netsh(["advfirewall", "firewall", "delete", "rule", "name=\"" + containerId + "\""])]
  {
    Ran(Pass, [Netsh(NetshApplier.RuleArgs(RuleOwner(containerId), "delete"))])
  }

  /** The netsh applier's cleanup deletes the same rule, but only after finding it. */
  lemma NetworkDownDeletesApplierRule(containerId: string, env: Env)
    ensures NetworkDown(containerId, env).steps[0].args == NetshApplier.RuleArgs(RuleOwner(containerId), "delete")
  {
  }

  /** `main`: what the command writes to standard error before exiting with 1, or nothing. The
   *  configuration file is read only when one is named; only its MTU is used. */
  function Command(flags: Result<Args, Error>, readConfig: string -> Result<int, Error>, inputs: Result<UpInputs, Error>, env: Env)
    : (r: Option<string>)
    ensures ParseArgs(flags).Failure? ==> r == Some("invalid args: " + Message(ParseArgs(flags).error))
    ensures ParseArgs(flags).Success? && flags.value.configFile != "" && readConfig(flags.value.configFile).Failure? ==>
              r == Some("configFile: " + Message(readConfig(flags.value.configFile).error))
    ensures r.None? <==>
              ParseArgs(flags).Success?
              && (flags.value.configFile != "" ==> readConfig(flags.value.configFile).Success?)
              && (flags.value.action == "down"
                  || (flags.value.action == "up"
                      && NetworkUp(flags.value.handle, if flags.value.configFile == "" then 0 else readConfig(flags.value.configFile).value,
                                   inputs, env).result.Success?))
    ensures ParseArgs(flags).Success? && flags.value.action != "up" && flags.value.action != "down"
            && (flags.value.configFile != "" ==> readConfig(flags.value.configFile).Success?) ==>
              r == Some("invalid action: " + flags.value.action)
  {
    var args := ParseArgs(flags);
    if args.Failure? then Some("invalid args: " + Message(args.error))
    else
      var a := args.value;
      var config := if a.configFile == "" then Success(0) else readConfig(a.configFile);
      if config.Failure? then Some("configFile: " + Message(config.error))
      else if a.action == "up" then
        var up := NetworkUp(a.handle, config.value, inputs, env);
        if up.result.Failure? then Some("networkUp: " + Message(up.result.error)) else None
      // `networkDown` never fails, so "networkDown: " is never written.
      else if a.action == "down" then None
      else Some("invalid action: " + a.action)
  }
}
