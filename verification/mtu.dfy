/** The MTU setter used by the HNS-era network manager: zero means "copy an existing adapter's MTU",
 *  and the value lands on the container's adapter or on the NAT network's adapter. */
module Mtu {
  import opened Wrappers
  import opened Errors
  import opened Host
  import NetworkApplier

  datatype Mtu = Mtu(containerId: string, networkName: string)

  /** `SetContainer`: zero copies the NAT network adapter's MTU onto the container's adapter. */
  function SetContainer(m: Mtu, mtu: int, h: Answers): (out: Run<Outcome<Error>>)
    ensures mtu != 0 ==> out == Run(h.setMTU(VEthernet(m.containerId), mtu), [SetMTU(VEthernet(m.containerId), mtu)])
    ensures mtu == 0 ==> |out.calls| >= 1 && out.calls[0] == InterfaceByName(VEthernet(m.networkName))
                         && (out.result.Pass? ==> h.mtuByName(VEthernet(m.networkName)).Success?)
    ensures mtu == 0 && h.mtuByName(VEthernet(m.networkName)).Success? ==>
              var copied := h.mtuByName(VEthernet(m.networkName)).value;
              out == Run(h.setMTU(VEthernet(m.containerId), copied),
                         [InterfaceByName(VEthernet(m.networkName)), SetMTU(VEthernet(m.containerId), copied)])
  {
    var size := if mtu == 0 then h.mtuByName(VEthernet(m.networkName)) else Success(mtu);
    var lookup := if mtu == 0 then [InterfaceByName(VEthernet(m.networkName))] else [];
    if size.Failure? then Run(Fail(size.error), lookup)
    else Run(h.setMTU(VEthernet(m.containerId), size.value), lookup + [SetMTU(VEthernet(m.containerId), size.value)])
  }

  /** `SetNat`: zero copies the MTU of the host adapter holding the local IP onto the NAT network's adapter. */
  function SetNat(m: Mtu, mtu: int, h: Answers): (out: Run<Outcome<Error>>)
    ensures mtu != 0 ==> out == Run(h.setMTU(VEthernet(m.networkName), mtu), [SetMTU(VEthernet(m.networkName), mtu)])
    ensures mtu == 0 ==> |out.calls| >= 1 && out.calls[0] == LocalIP
                         && (out.result.Pass? ==> h.localIP.Success? && h.mtuByIP(h.localIP.value).Success?)
  {
    if mtu != 0 then Run(h.setMTU(VEthernet(m.networkName), mtu), [SetMTU(VEthernet(m.networkName), mtu)])
    else if h.localIP.Failure? then Run(Fail(h.localIP.error), [LocalIP])
    else
      var found := h.mtuByIP(h.localIP.value);
      if found.Failure? then Run(Fail(found.error), [LocalIP, InterfaceByIP(h.localIP.value)])
      else Run(h.setMTU(VEthernet(m.networkName), found.value), [LocalIP, InterfaceByIP(h.localIP.value), SetMTU(VEthernet(m.networkName), found.value)])
  }

  /** The stand-alone setter and the rule applier's MTU methods agree call for call and answer for
   *  answer, for every MTU and every host. */
  lemma AgreesWithApplier(m: Mtu, mtu: int, h: Answers)
    ensures SetContainer(m, mtu, h) == NetworkApplier.ContainerMTU(NetworkApplier.Applier(m.containerId, m.networkName), mtu, h)
    ensures SetNat(m, mtu, h) == NetworkApplier.NatMTU(NetworkApplier.Applier(m.containerId, m.networkName), mtu, h)
  {
  }
}
