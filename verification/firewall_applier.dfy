/** The firewall-only applier: like the HNS-era one it allocates a host port, opens an inbound
 *  firewall rule and reserves the URL, but it answers with a NAT policy for the endpoint. */
module FirewallApplier {
  import opened Wrappers
  import opened Errors
  import opened Host
  import Words
  import NetRules
  import NetworkApplier

  datatype Applier = Applier(containerId: string)

  /** The parts of `hcsshim.NatPolicy` set here (the type is always NAT). */
  datatype NatPolicy = NatPolicy(protocol: string, internalPort: NetRules.Uint16, externalPort: NetRules.Uint16)

  function RuleOwner(a: Applier): NetworkApplier.Applier
  {
    NetworkApplier.Applier(a.containerId, "")
  }

  /** `Applier.In`. The NAT policy's ports are the 16-bit truncations of the container port and of
   *  the host port (given, or allocated when zero). */
  function In(a: Applier, rule: NetRules.NetIn, containerIP: string, h: Answers): (out: Run<Result<NatPolicy, Error>>)
    ensures rule.hostPort == 0 ==> |out.calls| >= 1 && out.calls[0] == AllocatePort(a.containerId, 0)
    ensures rule.hostPort != 0 ==> forall c :: c in out.calls ==> !c.AllocatePort?
    ensures out.result.Success? <==>
              (rule.hostPort != 0 || h.allocatePort(a.containerId, 0, 0).Success?)
              && h.createRule(NetworkApplier.InboundRule(RuleOwner(a), containerIP, rule.containerPort)).Pass?
              && h.runContainer(OpenPortArgs(rule.containerPort)).Pass?
    ensures out.result.Success? ==> out.result.value.protocol == "TCP"
                                    && out.result.value.internalPort == Words.Uint16(rule.containerPort)
    ensures out.result.Success? && rule.hostPort != 0 ==> out.result.value.externalPort == Words.Uint16(rule.hostPort)
    ensures out.result.Success? && rule.hostPort == 0 ==>
              out.result.value.externalPort == Words.Uint16(h.allocatePort(a.containerId, 0, 0).value)
    ensures forall c :: c in out.calls && c.RunContainer? ==>
              h.createRule(NetworkApplier.InboundRule(RuleOwner(a), containerIP, rule.containerPort)).Pass?
  {
    var granted := h.allocatePort(a.containerId, 0, 0);
    var allocCalls := if rule.hostPort == 0 then [AllocatePort(a.containerId, 0)] else [];
    if rule.hostPort == 0 && granted.Failure? then Run(Failure(granted.error), allocCalls)
    else
      var externalPort := if rule.hostPort != 0 then rule.hostPort else Words.Uint32(granted.value);
      var fr := NetworkApplier.InboundRule(RuleOwner(a), containerIP, rule.containerPort);
      var created := h.createRule(fr);
      if created.Fail? then Run(Failure(created.error), allocCalls + [CreateRule(fr)])
      else
        var reserved := h.runContainer(OpenPortArgs(rule.containerPort));
        var calls := allocCalls + [CreateRule(fr), RunContainer(OpenPortArgs(rule.containerPort))];
        if reserved.Fail? then Run(Failure(reserved.error), calls)
        else
          Uint16OfUint32(if granted.Success? then granted.value else 0);
          Run(Success(NatPolicy("TCP", Words.Uint16(rule.containerPort), Words.Uint16(externalPort))), calls)
  }

  /** Narrowing to 32 bits and then to 16 is narrowing to 16 bits directly. */
  lemma Uint16OfUint32(x: int)
    ensures Words.Uint16(Words.Uint32(x)) == Words.Uint16(x)
  {
    var k := (x - Words.Uint32(x)) / Words.TWO_32;
    assert x == Words.Uint32(x) + k * Words.TWO_32;
    assert k * Words.TWO_32 == (k * 0x1_0000) * Words.TWO_16;
    ModShift(Words.Uint32(x), k * 0x1_0000);
  }

  lemma ModShift(y: int, j: int)
    ensures (y + j * Words.TWO_16) % Words.TWO_16 == y % Words.TWO_16
  {
  }

  /** `Applier.Out`: the same outbound rule as the HNS-era host-VM variant; the ACL result is always nil. */
  function Out(a: Applier, rule: NetRules.NetOut, containerIP: string, h: Answers): (out: Run<Outcome<Error>>)
    ensures rule.protocol !in FIREWALL_PROTOCOL ==> out == Run(Fail(InvalidProtocol(rule.protocol)), [])
    ensures rule.protocol in FIREWALL_PROTOCOL ==>
              |out.calls| == 1 && out.calls[0].CreateRule? && out.result == h.createRule(out.calls[0].rule)
              && out.calls[0].rule.name == a.containerId
              && out.calls[0].rule.protocol == FIREWALL_PROTOCOL[rule.protocol]
              && out.calls[0].rule.remoteAddresses == NetRules.FirewallRuleIPRange(rule.networks)
              && (out.calls[0].rule.remotePorts != "" ==> HasPorts(rule.protocol))
  {
    var fr := NetworkApplier.OutboundRule(a.containerId, rule, containerIP);
    if fr.Failure? then Run(Fail(fr.error), [])
    else Run(h.createRule(fr.value), [CreateRule(fr.value)])
  }

  /** `Applier.Cleanup`: both steps run; two failures read "a, b". */
  function Cleanup(a: Applier, h: Answers): (out: Run<Outcome<Error>>)
    ensures out.calls == [ReleaseAllPorts(a.containerId), DeleteRule(a.containerId)]
    ensures out.result.Pass? <==> h.releaseAllPorts(a.containerId).Pass? && h.deleteRule(a.containerId).Pass?
    ensures h.releaseAllPorts(a.containerId).Fail? && h.deleteRule(a.containerId).Pass? ==> out.result == h.releaseAllPorts(a.containerId)
    ensures h.releaseAllPorts(a.containerId).Pass? && h.deleteRule(a.containerId).Fail? ==> out.result == h.deleteRule(a.containerId)
    ensures h.releaseAllPorts(a.containerId).Fail? && h.deleteRule(a.containerId).Fail? ==>
              out.result == Fail(Msg(Errors.Message(h.releaseAllPorts(a.containerId).error) + ", "
                                     + Errors.Message(h.deleteRule(a.containerId).error)))
  {
    Run(CombinePair(h.releaseAllPorts(a.containerId), h.deleteRule(a.containerId)),
        [ReleaseAllPorts(a.containerId), DeleteRule(a.containerId)])
  }

  /** `Applier.OpenPort`: one netsh call reserving the port's URL. */
  function OpenPort(port: NetRules.Uint32, h: Answers): (out: Run<Outcome<Error>>)
    ensures out.calls == [RunContainer(OpenPortArgs(port))] && out.result == h.runContainer(OpenPortArgs(port))
  {
    Run(h.runContainer(OpenPortArgs(port)), [RunContainer(OpenPortArgs(port))])
  }

  /** `In` makes the same calls as the HNS-era applier's `In` for the same container and
   *  succeeds on the same answers; its NAT policy is that applier's port mapping, each port
   *  narrowed to 16 bits. */
  lemma InAgreesWithNetworkApplier(a: Applier, rule: NetRules.NetIn, containerIP: string, h: Answers)
    ensures In(a, rule, containerIP, h).calls == NetworkApplier.In(RuleOwner(a), rule, containerIP, h).calls
    ensures In(a, rule, containerIP, h).result.Success? <==> NetworkApplier.In(RuleOwner(a), rule, containerIP, h).result.Success?
    ensures In(a, rule, containerIP, h).result.Success? ==>
              var mapping := NetworkApplier.In(RuleOwner(a), rule, containerIP, h).result.value;
              In(a, rule, containerIP, h).result.value
              == NatPolicy("TCP", Words.Uint16(mapping.containerPort), Words.Uint16(mapping.hostPort))
    ensures In(a, rule, containerIP, h).result.Failure? ==>
              In(a, rule, containerIP, h).result.error == NetworkApplier.In(RuleOwner(a), rule, containerIP, h).result.error
  {
    var granted := h.allocatePort(a.containerId, 0, 0);
    if rule.hostPort == 0 && granted.Success? {
      Uint16OfUint32(granted.value);
    }
  }

  /** `Out` is the HNS-era applier's host-VM net-out: the same rule, call and result. */
  lemma OutIsNetOutModifyHostVM(a: Applier, rule: NetRules.NetOut, containerIP: string, h: Answers)
    ensures Out(a, rule, containerIP, h) == NetworkApplier.NetOutModifyHostVM(RuleOwner(a), rule, containerIP, h)
    ensures rule.protocol in FIREWALL_PROTOCOL ==>
              Out(a, rule, containerIP, h).calls == [CreateRule(NetworkApplier.OutboundRule(a.containerId, rule, containerIP).value)]
  {
  }

  /** `Cleanup` is the HNS-era applier's cleanup: the same two calls and the same combined result. */
  lemma CleanupIsNetworkCleanup(a: Applier, h: Answers)
    ensures Cleanup(a, h) == NetworkApplier.Cleanup(RuleOwner(a), h)
  {
  }
}
