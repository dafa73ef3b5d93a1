/** The standalone endpoint manager: it creates an endpoint with the caller's NAT policies,
 *  attaches it and locks it down with ACLs, and deletes it again. */
module LegacyEndpoint {
  import opened Wrappers
  import opened Errors
  import opened Host
  import Hns
  import NetworkEndpoint

  datatype Manager = Manager(containerId: string, networkName: string, dnsServers: seq<string>)

  /** `netrules.WindowsProtocolTCP`, the Windows protocol number of TCP. */
  const WINDOWS_PROTOCOL_TCP: int := 6

  /** The ACLs applied to a new endpoint: inbound and outbound TCP blocked, then the caller's ACLs,
   *  each bound to the endpoint's address. The Go code sets `LocalAddresses` on the caller's own
   *  ACL objects (endpoint/endpoint.go:98-100); here the caller's sequence is left as it was and
   *  the bound copies are returned. */
  function AclList(ip: string, acls: seq<Hns.AclPolicy>): (r: seq<Hns.AclPolicy>)
    ensures |r| == 2 + |acls|
    ensures r[0].direction == Hns.In && r[1].direction == Hns.Out
    ensures forall i :: 0 <= i < 2 ==> r[i].action == Hns.Block && r[i].protocol == WINDOWS_PROTOCOL_TCP && r[i].localAddresses == ip
    ensures forall i :: 0 <= i < |acls| ==> r[2 + i] == acls[i].(localAddresses := ip)
  {
    [Hns.AclPolicy(Hns.Block, Hns.In, WINDOWS_PROTOCOL_TCP, ip, "", ""),
     Hns.AclPolicy(Hns.Block, Hns.Out, WINDOWS_PROTOCOL_TCP, ip, "", "")]
    + seq(|acls|, i requires 0 <= i < |acls| => acls[i].(localAddresses := ip))
  }

  /** After the endpoint exists: attach it and apply the ACLs, deleting it again if either fails. */
  function AttachAndLock(m: Manager, created: Hns.Endpoint, acls: seq<Hns.AclPolicy>, h: Answers): (out: Run<Outcome<Error>>)
    ensures out.result.Pass? <==>
              h.hotAttach(m.containerId, created.id).Pass? && h.applyAcls(created, AclList(created.ipAddress, acls)).Pass?
    ensures out.result.Pass? ==>
              out.calls == [HotAttach(m.containerId, created.id), ApplyAcls(created.id, AclList(created.ipAddress, acls))]
    ensures out.result.Fail? ==>
              |out.calls| >= 2 && out.calls[|out.calls| - 1] == DeleteEndpoint(created.id)
              && (out.result == h.hotAttach(m.containerId, created.id)
                  || out.result == h.applyAcls(created, AclList(created.ipAddress, acls)))
  {
    var attached := h.hotAttach(m.containerId, created.id);
    if attached.Fail? then Run(attached, [HotAttach(m.containerId, created.id), DeleteEndpoint(created.id)])
    else
      var list := AclList(created.ipAddress, acls);
      var applied := h.applyAcls(created, list);
      var calls := [HotAttach(m.containerId, created.id), ApplyAcls(created.id, list)];
      if applied.Fail? then Run(applied, calls + [DeleteEndpoint(created.id)]) else Run(Pass, calls)
  }

  /** `EndpointManager.Create`. The NAT policies are the endpoint's policies, in the given order. */
  function Create(m: Manager, natPolicies: seq<Hns.Policy>, acls: seq<Hns.AclPolicy>, h: Answers): (out: Run<Outcome<Error>>)
    ensures |out.calls| >= 1 && out.calls[0] == GetNetworkByName(m.networkName)
    ensures h.networkByName(m.networkName, 0).Failure? ==>
              out == Run(Fail(h.networkByName(m.networkName, 0).error), [GetNetworkByName(m.networkName)])
    ensures forall c :: c in out.calls && c.CreateEndpoint? ==>
              c.endpoint == Hns.NewEndpoint(m.containerId, h.networkByName(m.networkName, 0).value.id, natPolicies, m.dnsServers)
    ensures h.networkByName(m.networkName, 0).Success? ==>
              var created := NetworkEndpoint.CreateEndpointRetry(
                               Hns.NewEndpoint(m.containerId, h.networkByName(m.networkName, 0).value.id, natPolicies, m.dnsServers), h);
              (created.result.Failure? ==> out.result == Fail(created.result.error) && out.calls == [GetNetworkByName(m.networkName)] + created.calls)
              && (created.result.Success? ==> out == Run(AttachAndLock(m, created.result.value, acls, h).result,
                                                         [GetNetworkByName(m.networkName)] + created.calls + AttachAndLock(m, created.result.value, acls, h).calls))
  {
    var net := h.networkByName(m.networkName, 0);
    if net.Failure? then Run(Fail(net.error), [GetNetworkByName(m.networkName)])
    else
      var created := NetworkEndpoint.CreateEndpointRetry(Hns.NewEndpoint(m.containerId, net.value.id, natPolicies, m.dnsServers), h);
      if created.result.Failure? then Run(Fail(created.result.error), [GetNetworkByName(m.networkName)] + created.calls)
      else
        var locked := AttachAndLock(m, created.result.value, acls, h);
        Run(locked.result, [GetNetworkByName(m.networkName)] + created.calls + locked.calls)
  }

  /** `EndpointManager.Delete`: the lookup's exact "Endpoint <id> not found" text means already deleted. */
  function Delete(m: Manager, h: Answers): (out: Run<Outcome<Error>>)
    ensures h.endpointByName(m.containerId).Failure? ==>
              out.calls == [GetEndpointByName(m.containerId)]
              && (out.result.Pass? <==> Message(h.endpointByName(m.containerId).error) == "Endpoint " + m.containerId + " not found")
              && (out.result.Fail? ==> out.result.error == h.endpointByName(m.containerId).error)
    ensures h.endpointByName(m.containerId).Success? ==>
              var e := h.endpointByName(m.containerId).value;
              out.calls == [GetEndpointByName(m.containerId), HotDetach(m.containerId, e.id), DeleteEndpoint(e.id)]
              && out.result == CombinePair(NetworkEndpoint.IgnoreMissingContainer(h.hotDetach(m.containerId, e.id)), h.deleteEndpoint(e))
  {
    var found := h.endpointByName(m.containerId);
    if found.Failure? then
      Run(if Message(found.error) == "Endpoint " + m.containerId + " not found" then Pass else Fail(found.error),
          [GetEndpointByName(m.containerId)])
    else
      var e := found.value;
      Run(CombinePair(NetworkEndpoint.IgnoreMissingContainer(h.hotDetach(m.containerId, e.id)), h.deleteEndpoint(e)),
          [GetEndpointByName(m.containerId), HotDetach(m.containerId, e.id), DeleteEndpoint(e.id)])
  }

  /** Matching the not-found text and matching the not-found type agree on HNS's own error for
   *  this container, so the two managers delete alike. */
  lemma DeleteVariantsAgree(m: Manager, n: NetworkEndpoint.Manager, h: Answers)
    requires n.containerId == m.containerId
    requires h.endpointByName(m.containerId).Success? || h.endpointByName(m.containerId) == Failure(EndpointNotFound(m.containerId))
    ensures Delete(m, h) == NetworkEndpoint.Delete(n, h)
  {
  }
}
