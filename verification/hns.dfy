/** The Host Networking Service records the network code reads and writes: networks with their
 *  subnets, endpoints with their policies and the allocators HNS attaches once it has wired them. */
module Hns {
  import opened Text
  import NetRules

  datatype Subnet = Subnet(addressPrefix: string, gatewayAddress: string)

  datatype Network = Network(id: string, name: string, kind: string, subnets: seq<Subnet>, dnsServerList: string)

  /** The allocator kinds the code tells apart: the endpoint's port in its compartment, and the
   *  NAT that HNS sets up for the endpoint's port mappings. */
  datatype AllocatorKind = EndpointPort | Nat | OtherAllocator

  datatype Allocator = Allocator(kind: AllocatorKind, compartmentId: NetRules.Uint32, endpointPortGuid: string)

  /** The policies an endpoint carries, in place of their marshalled JSON. */
  datatype Policy =
    | QosPolicy(maximumOutgoingBandwidthInBytes: nat)
    | NatPolicy(protocol: string, internalPort: NetRules.Uint16, externalPort: NetRules.Uint16)

  datatype Action = Allow | Block
  datatype Direction = In | Out

  /** `hcsshim.ACLPolicy`, the fields the code sets. */
  datatype AclPolicy = AclPolicy(action: Action, direction: Direction, protocol: NetRules.Uint16,
                                 localAddresses: string, remoteAddresses: string, remotePort: string)

  datatype Endpoint = Endpoint(id: string, name: string, virtualNetwork: string, policies: seq<Policy>,
                               dnsServerList: string, ipAddress: string, allocators: seq<Allocator>)

  /** A new endpoint record as the managers build it, before HNS has given it an id. */
  function NewEndpoint(name: string, virtualNetwork: string, policies: seq<Policy>, dnsServers: seq<string>): (e: Endpoint)
    ensures e.name == name && e.virtualNetwork == virtualNetwork && e.policies == policies
    ensures |dnsServers| > 0 ==> e.dnsServerList == Join(dnsServers, ",")
    ensures |dnsServers| == 0 ==> e.dnsServerList == ""
    ensures e.allocators == []
  {
    Endpoint("", name, virtualNetwork, policies, if |dnsServers| > 0 then Join(dnsServers, ",") else "", "", [])
  }

  /** The NAT policy for one port mapping, both ports cut to 16 bits as `uint16(...)` does. */
  function MappingPolicy(m: NetRules.PortMapping): (p: Policy)
    ensures p.NatPolicy? && p.protocol == "TCP"
    ensures m.containerPort < 0x1_0000 ==> p.internalPort == m.containerPort
    ensures m.hostPort < 0x1_0000 ==> p.externalPort == m.hostPort
  {
    NatPolicy("TCP", m.containerPort % 0x1_0000, m.hostPort % 0x1_0000)
  }

  /** The index of the first allocator of the kind, or the length when there is none. */
  function FirstOfKind(allocators: seq<Allocator>, kind: AllocatorKind): (i: nat)
    ensures i <= |allocators|
    ensures i < |allocators| ==> allocators[i].kind == kind
    ensures forall j :: 0 <= j < i ==> allocators[j].kind != kind
    decreases |allocators|
  {
    if |allocators| == 0 || allocators[0].kind == kind then 0 else 1 + FirstOfKind(allocators[1..], kind)
  }

  /** `fmt.Sprintf("%+v", allocators)` is Go's struct formatting; this is a stand-in that keeps
   *  every field. */
  function AllocatorsText(allocators: seq<Allocator>): string
    decreases |allocators|
  {
    if |allocators| == 0 then ""
    else
      var a := allocators[0];
      "{Type:" + (match a.kind case EndpointPort => "EndpointPort" case Nat => "NAT" case OtherAllocator => "")
      + " CompartmentId:" + Decimal(a.compartmentId) + " EndpointPortGuid:" + a.endpointPortGuid + "}"
      + AllocatorsText(allocators[1..])
  }
}
