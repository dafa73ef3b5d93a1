/** The HNS-era net-rule applier: net-in rules become a host-port allocation, an inbound firewall
 *  rule and a URL reservation; net-out rules become an ACL policy or, in the host-VM variant, an
 *  outbound firewall rule; MTUs fall back to the relevant adapter's; cleanup undoes both. */
module NetworkApplier {
  import opened Wrappers
  import opened Errors
  import opened Text
  import opened Host
  import Words
  import Firewall
  import NetRules

  datatype Applier = Applier(containerId: string, networkName: string)

  /** The parts of `hcsshim.ACLPolicy` the applier sets (type ACL, action Allow, direction Out and
   *  rule type Switch are constant). */
  datatype AclPolicy = AclPolicy(remoteAddresses: string, remotePort: string, protocol: int)

  /** The inbound firewall rule a net-in rule opens: TCP to the container's address and port. */
  function InboundRule(a: Applier, containerIP: string, containerPort: NetRules.Uint32): (fr: Firewall.Rule)
    ensures fr.name == a.containerId && fr.localAddresses == containerIP
    ensures fr.action == Firewall.NET_FW_ACTION_ALLOW && fr.direction == Firewall.NET_FW_RULE_DIR_IN
    ensures fr.protocol == Firewall.NET_FW_IP_PROTOCOL_TCP
  {
    Firewall.Rule(a.containerId, Firewall.NET_FW_ACTION_ALLOW, Firewall.NET_FW_RULE_DIR_IN, Firewall.NET_FW_IP_PROTOCOL_TCP,
                  containerIP, Decimal(containerPort), "", "")
  }

  /** Because the inbound rule is TCP, the native helper attaches its port filter: the stored rule
   *  admits exactly the container port. */
  lemma InboundRuleFiltersPort(a: Applier, containerIP: string, containerPort: NetRules.Uint32)
    ensures Firewall.Stored(InboundRule(a, containerIP, containerPort)).localPorts == Some(Decimal(containerPort))
    ensures Firewall.Stored(InboundRule(a, containerIP, containerPort)).localAddresses == Some(containerIP)
  {
    Firewall.ProtocolCodes();
  }

  /** `Applier.In`. A zero host port is replaced by one granted for the container. */
  function In(a: Applier, rule: NetRules.NetIn, containerIP: string, h: Answers): (out: Run<Result<NetRules.PortMapping, Error>>)
    ensures rule.hostPort == 0 ==> |out.calls| >= 1 && out.calls[0] == AllocatePort(a.containerId, 0)
    ensures rule.hostPort != 0 ==> forall c :: c in out.calls ==> !c.AllocatePort?
    ensures out.result.Success? <==>
              (rule.hostPort != 0 || h.allocatePort(a.containerId, 0, 0).Success?)
              && h.createRule(InboundRule(a, containerIP, rule.containerPort)).Pass?
              && h.runContainer(OpenPortArgs(rule.containerPort)).Pass?
    ensures out.result.Success? ==> out.result.value.containerPort == rule.containerPort
    ensures out.result.Success? && rule.hostPort != 0 ==> out.result.value.hostPort == rule.hostPort
    ensures out.result.Success? && rule.hostPort == 0 ==>
              out.result.value.hostPort == Words.Uint32(h.allocatePort(a.containerId, 0, 0).value)
    ensures forall c :: c in out.calls && c.RunContainer? ==>
              c == RunContainer(OpenPortArgs(rule.containerPort)) && h.createRule(InboundRule(a, containerIP, rule.containerPort)).Pass?
  {
    var granted := h.allocatePort(a.containerId, 0, 0);
    var allocCalls := if rule.hostPort == 0 then [AllocatePort(a.containerId, 0)] else [];
    if rule.hostPort == 0 && granted.Failure? then Run(Failure(granted.error), allocCalls)
    else
      var hostPort: NetRules.Uint32 := if rule.hostPort != 0 then rule.hostPort else Words.Uint32(granted.value);
      var fr := InboundRule(a, containerIP, rule.containerPort);
      var created := h.createRule(fr);
      if created.Fail? then Run(Failure(created.error), allocCalls + [CreateRule(fr)])
      else
        var reserved := h.runContainer(OpenPortArgs(rule.containerPort));
        var calls := allocCalls + [CreateRule(fr), RunContainer(OpenPortArgs(rule.containerPort))];
        if reserved.Fail? then Run(Failure(reserved.error), calls)
        else Run(Success(NetRules.PortMapping(hostPort, rule.containerPort)), calls)
  }

  /** The remote addresses of an ACL policy: each network's CIDR blocks (`NetworkCidrs`) joined by
   *  ", ", and the networks joined the same way. */
  function AclRemoteAddresses(networks: seq<NetRules.IPRange>): (s: string)
    ensures |networks| == 0 ==> s == ""
    ensures |networks| == 1 ==> s == NetworkCidrs(networks[0])
  {
    Join(seq(|networks|, i requires 0 <= i < |networks| => NetworkCidrs(networks[i])), ", ")
  }

  function NetworkCidrs(r: NetRules.IPRange): string
  {
    Join(NetRules.IPRangeToCIDRs(r), ", ")
  }

  /** One more network appends its blocks after a ", ". */
  lemma AclRemoteAddressesAppend(networks: seq<NetRules.IPRange>, n: NetRules.IPRange)
    requires |networks| >= 1
    ensures AclRemoteAddresses(networks + [n]) == AclRemoteAddresses(networks) + ", " + NetworkCidrs(n)
  {
    var parts := seq(|networks|, i requires 0 <= i < |networks| => NetworkCidrs(networks[i]));
    assert seq(|networks + [n]|, i requires 0 <= i < |networks + [n]| => NetworkCidrs((networks + [n])[i])) == parts + [NetworkCidrs(n)];
    JoinSnoc(parts, NetworkCidrs(n), ", ");
  }

  /** `Applier.Out` (ACL build): an outbound allow policy over the rule's networks. */
  function Out(rule: NetRules.NetOut, containerIP: string): (r: Result<AclPolicy, Error>)
    ensures r.Success? <==> rule.protocol in FIREWALL_PROTOCOL
    ensures r.Success? ==> r.value.protocol == FIREWALL_PROTOCOL[rule.protocol]
                            && r.value.remoteAddresses == AclRemoteAddresses(rule.networks)
    ensures r.Success? ==> r.value.remotePort == if HasPorts(rule.protocol) then NetRules.FirewallRulePortRange(rule.ports) else ""
    ensures r.Failure? ==> r.error == InvalidProtocol(rule.protocol)
  {
    var p := AclPolicy(AclRemoteAddresses(rule.networks), "", 0);
    if rule.protocol == NetRules.PROTOCOL_TCP then
      Success(p.(remotePort := NetRules.FirewallRulePortRange(rule.ports), protocol := Words.Uint16(Firewall.NET_FW_IP_PROTOCOL_TCP)))
    else if rule.protocol == NetRules.PROTOCOL_UDP then
      Success(p.(remotePort := NetRules.FirewallRulePortRange(rule.ports), protocol := Words.Uint16(Firewall.NET_FW_IP_PROTOCOL_UDP)))
    else if rule.protocol == NetRules.PROTOCOL_ICMP then
      Success(p.(protocol := Words.Uint16(Firewall.NET_FW_IP_PROTOCOL_ICMP)))
    else if rule.protocol == NetRules.PROTOCOL_ALL then
      Success(p.(protocol := Words.Uint16(Firewall.NET_FW_IP_PROTOCOL_ANY)))
    else
      Failure(InvalidProtocol(rule.protocol))
  }

  /** `Applier.ContainerMTU`: zero means the NAT network adapter's MTU; the container's adapter is set. */
  function ContainerMTU(a: Applier, mtu: int, h: Answers): (out: Run<Outcome<Error>>)
    ensures mtu != 0 ==> out.calls == [SetMTU(VEthernet(a.containerId), mtu)]
    ensures mtu == 0 && h.mtuByName(VEthernet(a.networkName)).Success? ==>
              out.calls == [InterfaceByName(VEthernet(a.networkName)),
                            SetMTU(VEthernet(a.containerId), h.mtuByName(VEthernet(a.networkName)).value)]
    ensures mtu == 0 && h.mtuByName(VEthernet(a.networkName)).Failure? ==>
              out == Run(Fail(h.mtuByName(VEthernet(a.networkName)).error), [InterfaceByName(VEthernet(a.networkName))])
    ensures forall c :: c in out.calls && c.SetMTU? ==> out.result == h.setMTU(c.alias, c.mtu)
  {
    if mtu == 0 then
      var found := h.mtuByName(VEthernet(a.networkName));
      if found.Failure? then Run(Fail(found.error), [InterfaceByName(VEthernet(a.networkName))])
      else Run(h.setMTU(VEthernet(a.containerId), found.value),
               [InterfaceByName(VEthernet(a.networkName)), SetMTU(VEthernet(a.containerId), found.value)])
    else Run(h.setMTU(VEthernet(a.containerId), mtu), [SetMTU(VEthernet(a.containerId), mtu)])
  }

  /** `Applier.NatMTU`: zero means the MTU of the host adapter holding the local IP; the NAT
   *  network's adapter is set. */
  function NatMTU(a: Applier, mtu: int, h: Answers): (out: Run<Outcome<Error>>)
    ensures mtu != 0 ==> out.calls == [SetMTU(VEthernet(a.networkName), mtu)]
    ensures mtu == 0 && h.localIP.Success? && h.mtuByIP(h.localIP.value).Success? ==>
              out.calls == [LocalIP, InterfaceByIP(h.localIP.value), SetMTU(VEthernet(a.networkName), h.mtuByIP(h.localIP.value).value)]
    ensures mtu == 0 && h.localIP.Failure? ==> out == Run(Fail(h.localIP.error), [LocalIP])
    ensures mtu == 0 && h.localIP.Success? && h.mtuByIP(h.localIP.value).Failure? ==>
              out == Run(Fail(h.mtuByIP(h.localIP.value).error), [LocalIP, InterfaceByIP(h.localIP.value)])
    ensures forall c :: c in out.calls && c.SetMTU? ==> out.result == h.setMTU(c.alias, c.mtu)
  {
    if mtu == 0 then
      if h.localIP.Failure? then Run(Fail(h.localIP.error), [LocalIP])
      else
        var found := h.mtuByIP(h.localIP.value);
        if found.Failure? then Run(Fail(found.error), [LocalIP, InterfaceByIP(h.localIP.value)])
        else Run(h.setMTU(VEthernet(a.networkName), found.value),
                 [LocalIP, InterfaceByIP(h.localIP.value), SetMTU(VEthernet(a.networkName), found.value)])
    else Run(h.setMTU(VEthernet(a.networkName), mtu), [SetMTU(VEthernet(a.networkName), mtu)])
  }

  /** A non-zero MTU is applied as given, with no lookup, in both variants. */
  lemma ExplicitMTUPassesThrough(a: Applier, mtu: int, h: Answers)
    requires mtu != 0
    ensures ContainerMTU(a, mtu, h).result == h.setMTU(VEthernet(a.containerId), mtu)
    ensures NatMTU(a, mtu, h).result == h.setMTU(VEthernet(a.networkName), mtu)
    ensures forall c :: c in ContainerMTU(a, mtu, h).calls + NatMTU(a, mtu, h).calls ==> c.SetMTU?
  {
  }

  /** `Applier.Cleanup`: the ports are released and the rule deleted whatever happens to the other. */
  function Cleanup(a: Applier, h: Answers): (out: Run<Outcome<Error>>)
    ensures out.calls == [ReleaseAllPorts(a.containerId), DeleteRule(a.containerId)]
    ensures out.result.Pass? <==> h.releaseAllPorts(a.containerId).Pass? && h.deleteRule(a.containerId).Pass?
    ensures out.result == CombinePair(h.releaseAllPorts(a.containerId), h.deleteRule(a.containerId))
  {
    var released := h.releaseAllPorts(a.containerId);
    var deleted := h.deleteRule(a.containerId);
    Run(if released.Fail? && deleted.Fail? then Fail(Msg(Message(released.error) + ", " + Message(deleted.error)))
        else if released.Fail? then released
        else deleted,
        [ReleaseAllPorts(a.containerId), DeleteRule(a.containerId)])
  }

  /** `netInModifyHostVM`: the same inbound rule `In` creates, and nothing else. */
  function NetInModifyHostVM(a: Applier, rule: NetRules.NetIn, containerIP: string, h: Answers): (out: Run<Outcome<Error>>)
    ensures out.calls == [CreateRule(InboundRule(a, containerIP, rule.containerPort))]
    ensures out.result == h.createRule(InboundRule(a, containerIP, rule.containerPort))
  {
    var fr := InboundRule(a, containerIP, rule.containerPort);
    Run(h.createRule(fr), [CreateRule(fr)])
  }

  /** The outbound firewall rule of a net-out rule, or the invalid-protocol error. */
  function OutboundRule(containerId: string, rule: NetRules.NetOut, containerIP: string): (r: Result<Firewall.Rule, Error>)
    ensures r.Success? <==> rule.protocol in FIREWALL_PROTOCOL
    ensures r.Success? ==> r.value.name == containerId && r.value.action == Firewall.NET_FW_ACTION_ALLOW
                           && r.value.direction == Firewall.NET_FW_RULE_DIR_OUT && r.value.localAddresses == containerIP
                           && r.value.remoteAddresses == NetRules.FirewallRuleIPRange(rule.networks)
                           && r.value.protocol == FIREWALL_PROTOCOL[rule.protocol]
    ensures r.Success? ==> r.value.remotePorts == if HasPorts(rule.protocol) then NetRules.FirewallRulePortRange(rule.ports) else ""
    ensures r.Failure? ==> r.error == InvalidProtocol(rule.protocol)
  {
    var fr := Firewall.Rule(containerId, Firewall.NET_FW_ACTION_ALLOW, Firewall.NET_FW_RULE_DIR_OUT, 0,
                            containerIP, "", NetRules.FirewallRuleIPRange(rule.networks), "");
    match rule.protocol
    case 1 => Success(fr.(remotePorts := NetRules.FirewallRulePortRange(rule.ports), protocol := Firewall.NET_FW_IP_PROTOCOL_TCP))
    case 2 => Success(fr.(remotePorts := NetRules.FirewallRulePortRange(rule.ports), protocol := Firewall.NET_FW_IP_PROTOCOL_UDP))
    case 3 => Success(fr.(protocol := Firewall.NET_FW_IP_PROTOCOL_ICMP))
    case 0 => Success(fr.(protocol := Firewall.NET_FW_IP_PROTOCOL_ANY))
    case _ => Failure(InvalidProtocol(rule.protocol))
  }

  /** Once stored, an outbound rule keeps its remote ports exactly when its protocol carries them. */
  lemma OutboundRuleStoresPorts(containerId: string, rule: NetRules.NetOut, containerIP: string)
    requires OutboundRule(containerId, rule, containerIP).Success?
    ensures var s := Firewall.Stored(OutboundRule(containerId, rule, containerIP).value);
            s.remotePorts.Some? <==> HasPorts(rule.protocol)
  {
    Firewall.ProtocolCodes();
  }

  /** `netOutModifyHostVM`: an invalid protocol fails before the firewall is touched. */
  function NetOutModifyHostVM(a: Applier, rule: NetRules.NetOut, containerIP: string, h: Answers): (out: Run<Outcome<Error>>)
    ensures rule.protocol !in FIREWALL_PROTOCOL ==> out == Run(Fail(InvalidProtocol(rule.protocol)), [])
    ensures rule.protocol in FIREWALL_PROTOCOL ==>
              |out.calls| == 1 && out.calls[0].CreateRule? && out.result == h.createRule(out.calls[0].rule)
              && out.calls[0].rule == OutboundRule(a.containerId, rule, containerIP).value
  {
    var fr := OutboundRule(a.containerId, rule, containerIP);
    if fr.Failure? then Run(Fail(fr.error), [])
    else Run(h.createRule(fr.value), [CreateRule(fr.value)])
  }

  /** The ACL and host-VM variants of net-out agree on which protocols are valid, on the
   *  protocol number, and on the remote ports. */
  lemma OutVariantsAgree(a: Applier, rule: NetRules.NetOut, containerIP: string)
    ensures Out(rule, containerIP).Success? <==> OutboundRule(a.containerId, rule, containerIP).Success?
    ensures Out(rule, containerIP).Success? ==>
              Out(rule, containerIP).value.protocol == OutboundRule(a.containerId, rule, containerIP).value.protocol
              && Out(rule, containerIP).value.remotePort == OutboundRule(a.containerId, rule, containerIP).value.remotePorts
  {
  }

  /** `cleanupModifyHostVM`: delete the rule named after the container. */
  function CleanupModifyHostVM(a: Applier, h: Answers): (out: Run<Outcome<Error>>)
    ensures out.calls == [DeleteRule(a.containerId)] && out.result == h.deleteRule(a.containerId)
  {
    Run(h.deleteRule(a.containerId), [DeleteRule(a.containerId)])
  }
}
