/** The netsh-driven applier of the original `netrules` package: net-in only accepts the two
 *  fixed container ports and reads the host port back from the endpoint's NAT policies; net-out
 *  and cleanup are `advfirewall` commands on the host; the MTU is set inside the container. */
module NetshApplier {
  import opened Wrappers
  import opened Errors
  import opened Text
  import opened Host
  import NetRules

  datatype Applier = Applier(id: string, insiderPreview: bool, networkName: string)

  /** An endpoint policy after `json.Unmarshal` into an `hcsshim.NatPolicy`. */
  datatype NatPolicy = NatPolicy(kind: string, internalPort: NetRules.Uint16, externalPort: NetRules.Uint16)

  const INT64_MAX: int := 0x7FFF_FFFF_FFFF_FFFF

  function InvalidPortMapping(rule: NetRules.NetIn): Error
  {
    Msg("invalid port mapping: host " + Decimal(rule.hostPort) + ", container " + Decimal(rule.containerPort))
  }

  predicate ValidNetIn(rule: NetRules.NetIn)
  {
    (rule.containerPort == 8080 || rule.containerPort == 2222) && rule.hostPort == 0
  }

  predicate Matches(p: NatPolicy, containerPort: NetRules.Uint32)
  {
    p.kind == "NAT" && p.internalPort == containerPort
  }

  /** The scan of the endpoint's policies ends at the first one that fails to decode or matches. */
  predicate Stops(p: Result<NatPolicy, Error>, containerPort: NetRules.Uint32)
  {
    p.Failure? || Matches(p.value, containerPort)
  }

  function FirstStop(policies: seq<Result<NatPolicy, Error>>, containerPort: NetRules.Uint32): (i: nat)
    ensures i <= |policies|
    ensures forall j :: 0 <= j < i ==> !Stops(policies[j], containerPort)
    ensures i < |policies| ==> Stops(policies[i], containerPort)
    decreases |policies|
  {
    if |policies| == 0 || Stops(policies[0], containerPort) then 0
    else 1 + FirstStop(policies[1..], containerPort)
  }

  /** The loop over the endpoint's policies: the decode error, the first match, or nothing. */
  function FindMapping(policies: seq<Result<NatPolicy, Error>>, containerPort: NetRules.Uint32)
    : (r: Result<Option<NetRules.PortMapping>, Error>)
    ensures r.Success? && r.value.None? <==> forall i :: 0 <= i < |policies| ==> !Stops(policies[i], containerPort)
    ensures r.Success? && r.value.Some? ==>
              exists i :: 0 <= i < |policies| && policies[i].Success? && Matches(policies[i].value, containerPort)
                          && r.value.value == NetRules.PortMapping(policies[i].value.externalPort, policies[i].value.internalPort)
                          && forall j :: 0 <= j < i ==> !Stops(policies[j], containerPort)
    ensures r.Failure? ==>
              exists i :: 0 <= i < |policies| && policies[i] == Failure(r.error)
                          && forall j :: 0 <= j < i ==> !Stops(policies[j], containerPort)
  {
    var i := FirstStop(policies, containerPort);
    if i == |policies| then Success(None)
    else if policies[i].Failure? then Failure(policies[i].error)
    else Success(Some(NetRules.PortMapping(policies[i].value.externalPort, policies[i].value.internalPort)))
  }

  /** `Applier.In`. Without a matching policy the zero mapping is kept, so port 0 is reserved. */
  function In(a: Applier, rule: NetRules.NetIn, policies: seq<Result<NatPolicy, Error>>, h: Answers)
    : (out: Run<Result<NetRules.PortMapping, Error>>)
    ensures !ValidNetIn(rule) ==> out == Run(Failure(InvalidPortMapping(rule)), [])
    ensures ValidNetIn(rule) && FindMapping(policies, rule.containerPort).Failure? ==>
              out == Run(Failure(FindMapping(policies, rule.containerPort).error), [])
    ensures ValidNetIn(rule) && FindMapping(policies, rule.containerPort).Success? ==>
              var m := FindMapping(policies, rule.containerPort).value;
              var mapping := if m.Some? then m.value else NetRules.PortMapping(0, 0);
              out.calls == [RunContainer(OpenPortArgs(mapping.containerPort))]
              && (out.result.Success? <==> h.runContainer(OpenPortArgs(mapping.containerPort)).Pass?)
              && (out.result.Success? ==> out.result.value == mapping)
  {
    if !ValidNetIn(rule) then Run(Failure(InvalidPortMapping(rule)), [])
    else
      var found := FindMapping(policies, rule.containerPort);
      if found.Failure? then Run(Failure(found.error), [])
      else
        var mapping := if found.value.Some? then found.value.value else NetRules.PortMapping(0, 0);
        var reserved := h.runContainer(OpenPortArgs(mapping.containerPort));
        Run(if reserved.Fail? then Failure(reserved.error) else Success(mapping), [RunContainer(OpenPortArgs(mapping.containerPort))])
  }

  /** A matching policy is mapped to itself: the reserved port is the requested container port. */
  lemma InMapsRequestedPort(a: Applier, rule: NetRules.NetIn, policies: seq<Result<NatPolicy, Error>>, h: Answers)
    requires ValidNetIn(rule)
    requires In(a, rule, policies, h).result.Success?
    requires exists i :: 0 <= i < |policies| && policies[i].Success? && Matches(policies[i].value, rule.containerPort)
    ensures In(a, rule, policies, h).result.value.containerPort == rule.containerPort
    ensures In(a, rule, policies, h).calls == [RunContainer(OpenPortArgs(rule.containerPort))]
  {
  }

  /** The netsh name of the protocol of an outbound rule; "" for an unknown one. */
  function ProtocolName(p: NetRules.Protocol): (name: string)
    ensures name == "" <==> p !in FIREWALL_PROTOCOL
  {
    match p
    case 1 => "TCP"
    case 2 => "UDP"
    case 3 => "ICMP"
    case 0 => "ANY"
    case _ => ""
  }

  /** The `advfirewall firewall add rule` arguments of an outbound rule. */
  function OutArgs(a: Applier, rule: NetRules.NetOut, ip: NetRules.IPv4): (args: seq<string>)
    requires rule.protocol in FIREWALL_PROTOCOL
    ensures |args| == if HasPorts(rule.protocol) then 11 else 10
    ensures args[..4] == ["advfirewall", "firewall", "add", "rule"] && args[4] == "name=\"" + a.id + "\""
    ensures args[7] == "localip=" + NetRules.IPString(ip) && args[8] == "remoteip=" + NetRules.FirewallRuleIPRange(rule.networks)
    ensures args[|args| - 1] == "protocol=" + ProtocolName(rule.protocol)
    ensures HasPorts(rule.protocol) ==> args[9] == "remoteport=" + NetRules.FirewallRulePortRange(rule.ports)
  {
    var base := ["advfirewall", "firewall", "add", "rule", "name=\"" + a.id + "\"", "dir=out", "action=allow",
                 "localip=" + NetRules.IPString(ip), "remoteip=" + NetRules.FirewallRuleIPRange(rule.networks)];
    var ports := if HasPorts(rule.protocol) then ["remoteport=" + NetRules.FirewallRulePortRange(rule.ports)] else [];
    base + ports + ["protocol=" + ProtocolName(rule.protocol)]
  }

  /** `Applier.Out`: ICMP needs no rule, an unknown protocol is an error, and both skip netsh. */
  function Out(a: Applier, rule: NetRules.NetOut, ip: NetRules.IPv4, h: Answers): (out: Run<Outcome<Error>>)
    ensures rule.protocol == NetRules.PROTOCOL_ICMP ==> out == Run(Pass, [])
    ensures rule.protocol !in FIREWALL_PROTOCOL ==> out == Run(Fail(InvalidProtocol(rule.protocol)), [])
    ensures rule.protocol in FIREWALL_PROTOCOL && rule.protocol != NetRules.PROTOCOL_ICMP ==>
              out.calls == [RunHost(OutArgs(a, rule, ip))]
              && (out.result.Pass? <==> h.runHost(OutArgs(a, rule, ip)).Success?)
  {
    var protocol := ProtocolName(rule.protocol);
    if protocol == "ICMP" then Run(Pass, [])
    else if protocol == "" then Run(Fail(InvalidProtocol(rule.protocol)), [])
    else
      var args := OutArgs(a, rule, ip);
      var ran := h.runHost(args);
      Run(if ran.Failure? then Fail(ran.error) else Pass, [RunHost(args)])
  }

  /** The adapter whose MTU a zero request copies. */
  function HostInterface(a: Applier): string
  {
    if a.insiderPreview then VEthernet(a.networkName) else "vEthernet (HNS Internal NIC)"
  }

  const NoHostMTU: Error := Msg("could not obtain host MTU")

  /** `strconv.Atoi` of a run of digits: its value, or an error past the 64-bit range. */
  function Atoi(digits: string): (r: Result<int, Error>)
    requires AllDigits(digits)
    ensures r.Success? ==> 0 <= r.value <= INT64_MAX && r.value == DigitsValue(digits)
    ensures r.Failure? <==> DigitsValue(digits) > INT64_MAX
  {
    if DigitsValue(digits) > INT64_MAX then Failure(Msg("value out of range")) else Success(DigitsValue(digits))
  }

  /** `getHostMTU`: the first decimal number in the adapter listing. */
  function HostMTU(a: Applier, h: Answers): (out: Run<Result<int, Error>>)
    ensures out.calls == [RunHost(["interface", "ipv4", "show", "subinterface", "interface=" + HostInterface(a)])]
    ensures var listing := h.runHost(["interface", "ipv4", "show", "subinterface", "interface=" + HostInterface(a)]);
            (listing.Failure? ==> out.result == Failure(listing.error))
            && (listing.Success? && FirstDigitRun(listing.value).None? ==> out.result == Failure(NoHostMTU))
            && (listing.Success? && FirstDigitRun(listing.value).Some? ==>
                  var digits := FirstDigitRun(listing.value).value;
                  if DigitsValue(digits) <= INT64_MAX then out.result == Success(DigitsValue(digits))
                  else out.result == Failure(NoHostMTU))
  {
    var args := ["interface", "ipv4", "show", "subinterface", "interface=" + HostInterface(a)];
    var listing := h.runHost(args);
    if listing.Failure? then Run(Failure(listing.error), [RunHost(args)])
    else
      match FirstDigitRun(listing.value)
      case None => Run(Failure(NoHostMTU), [RunHost(args)])
      case Some(digits) =>
        var n := Atoi(digits);
        Run(if n.Failure? then Failure(NoHostMTU) else n, [RunHost(args)])
  }

  /** The quoted name of the container adapter: the endpoint id's text before its first '-', or
   *  the whole id in insider-preview mode. */
  function ContainerInterface(a: Applier, interfaceInnerId: string): string
  {
    if a.insiderPreview then "\"" + VEthernet(interfaceInnerId) + "\""
    else "\"" + VEthernet("Container NIC " + Split(interfaceInnerId, '-')[0]) + "\""
  }

  /** Outside insider-preview mode the adapter is named after the endpoint id's text before its
   *  first '-', or after the whole id when it has none. */
  lemma ContainerInterfaceName(a: Applier, interfaceInnerId: string)
    requires !a.insiderPreview
    ensures '-' in interfaceInnerId ==>
              ContainerInterface(a, interfaceInnerId) == "\"" + VEthernet("Container NIC " + interfaceInnerId[..IndexOf(interfaceInnerId, '-')]) + "\""
    ensures '-' !in interfaceInnerId ==>
              ContainerInterface(a, interfaceInnerId) == "\"" + VEthernet("Container NIC " + interfaceInnerId) + "\""
  {
    SplitShape(interfaceInnerId, '-');
  }

  function MtuArgs(a: Applier, interfaceInnerId: string, mtu: int): seq<string>
  {
    ["interface", "ipv4", "set", "subinterface", ContainerInterface(a, interfaceInnerId), "mtu=" + IntDecimal(mtu), "store=persistent"]
  }

  /** `Applier.MTU`: zero copies the host adapter's MTU; anything above 1500 is refused before
   *  the container is touched. */
  function MTU(a: Applier, interfaceInnerId: string, mtu: int, h: Answers): (out: Run<Outcome<Error>>)
    ensures mtu > 1500 ==> out == Run(Fail(Msg("invalid mtu specified: " + IntDecimal(mtu))), [])
    ensures mtu != 0 && mtu <= 1500 ==> out == Run(h.runContainer(MtuArgs(a, interfaceInnerId, mtu)), [RunContainer(MtuArgs(a, interfaceInnerId, mtu))])
    ensures mtu == 0 && HostMTU(a, h).result.Failure? ==> out == Run(Fail(HostMTU(a, h).result.error), HostMTU(a, h).calls)
    ensures forall c :: c in out.calls && c.RunContainer? ==>
              exists m :: m <= 1500 && c.args == MtuArgs(a, interfaceInnerId, m) && out.result == h.runContainer(c.args)
  {
    var host := if mtu == 0 then HostMTU(a, h) else Run(Success(mtu), []);
    if host.result.Failure? then Run(Fail(host.result.error), host.calls)
    else if host.result.value > 1500 then Run(Fail(Msg("invalid mtu specified: " + IntDecimal(host.result.value))), host.calls)
    else
      var args := MtuArgs(a, interfaceInnerId, host.result.value);
      Run(h.runContainer(args), host.calls + [RunContainer(args)])
  }

  /** With a zero request, the adapter listing's first number is what the container gets. */
  lemma ZeroMTUUsesHostListing(a: Applier, interfaceInnerId: string, h: Answers, listing: string)
    requires h.runHost(["interface", "ipv4", "show", "subinterface", "interface=" + HostInterface(a)]) == Success(listing)
    requires FirstDigitRun(listing).Some? && DigitsValue(FirstDigitRun(listing).value) <= 1500
    ensures var n := DigitsValue(FirstDigitRun(listing).value);
            MTU(a, interfaceInnerId, 0, h).calls[1] == RunContainer(MtuArgs(a, interfaceInnerId, n))
            && MTU(a, interfaceInnerId, 0, h).result == h.runContainer(MtuArgs(a, interfaceInnerId, n))
  {
  }

  function RuleArgs(a: Applier, verb: string): seq<string>
  {
    ["advfirewall", "firewall", verb, "rule", "name=\"" + a.id + "\""]
  }

  /** `Applier.Cleanup`: no rule to show means nothing to delete and no error. */
  function Cleanup(a: Applier, h: Answers): (out: Run<Outcome<Error>>)
    ensures h.runHost(RuleArgs(a, "show")).Failure? ==> out == Run(Pass, [RunHost(RuleArgs(a, "show"))])
    ensures h.runHost(RuleArgs(a, "show")).Success? ==>
              out.calls == [RunHost(RuleArgs(a, "show")), RunHost(RuleArgs(a, "delete"))]
              && (out.result.Pass? <==> h.runHost(RuleArgs(a, "delete")).Success?)
  {
    if h.runHost(RuleArgs(a, "show")).Failure? then Run(Pass, [RunHost(RuleArgs(a, "show"))])
    else
      var deleted := h.runHost(RuleArgs(a, "delete"));
      Run(if deleted.Failure? then Fail(deleted.error) else Pass, [RunHost(RuleArgs(a, "show")), RunHost(RuleArgs(a, "delete"))])
  }
}
