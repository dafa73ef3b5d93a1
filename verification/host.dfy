/** The narrow interfaces the network appliers drive — the port allocator, the firewall, the netsh
 *  runner and the network-interface lookup — given as scripted answers, and the calls made on
 *  them recorded as a trace. */
module Host {
  import opened Wrappers
  import opened Errors
  import opened Text
  import Firewall
  import NetRules
  import Hns

  datatype Call =
    | AllocatePort(handle: string, port: int)
    | ReleaseAllPorts(handle: string)
    | CreateRule(rule: Firewall.Rule)
    | DeleteRule(name: string)
    | RunContainer(args: seq<string>)
    | RunHost(args: seq<string>)
    | InterfaceByName(name: string)
    | LocalIP
    | InterfaceByIP(ip: string)
    | SetMTU(alias: string, mtu: int)
    | GetNetworkByName(networkName: string)
    | CreateNetwork(network: Hns.Network)
    | DeleteNetwork(networkId: string)
    | CreateEndpoint(endpoint: Hns.Endpoint)
    | UpdateEndpoint(endpoint: Hns.Endpoint)
    | GetEndpointById(endpointId: string)
    | GetEndpointByName(endpointName: string)
    | DeleteEndpoint(endpointId: string)
    | HotAttach(containerId: string, endpointId: string)
    | HotDetach(containerId: string, endpointId: string)
    | ApplyAcls(endpointId: string, acls: seq<Hns.AclPolicy>)
    | RuleExists(ruleName: string)

  /** What each collaborator answers. The interface lookups answer with the interface's MTU,
   *  the only field the appliers read. A collaborator that a loop asks again and again answers
   *  by round: its argument includes how many times the same question was asked before. */
  datatype Answers = Answers(
    allocatePort: (string, int, nat) -> Result<int, Error>,
    releaseAllPorts: string -> Outcome<Error>,
    createRule: Firewall.Rule -> Outcome<Error>,
    deleteRule: string -> Outcome<Error>,
    runContainer: seq<string> -> Outcome<Error>,
    runHost: seq<string> -> Result<string, Error>,
    mtuByName: string -> Result<int, Error>,
    localIP: Result<string, Error>,
    mtuByIP: string -> Result<int, Error>,
    setMTU: (string, int) -> Outcome<Error>,
    runHostAgain: (seq<string>, nat) -> Result<string, Error>,
    ruleExists: (string, nat) -> Result<bool, Error>,
    networkByName: (string, nat) -> Result<Hns.Network, Error>,
    createNetwork: (Hns.Network, nat) -> Result<Hns.Network, Error>,
    deleteNetwork: Hns.Network -> Outcome<Error>,
    createEndpoint: (Hns.Endpoint, nat) -> Result<Hns.Endpoint, Error>,
    updateEndpoint: Hns.Endpoint -> Result<Hns.Endpoint, Error>,
    endpointById: (string, nat) -> Result<Hns.Endpoint, Error>,
    endpointByName: string -> Result<Hns.Endpoint, Error>,
    deleteEndpoint: Hns.Endpoint -> Outcome<Error>,
    hotAttach: (string, string) -> Outcome<Error>,
    hotDetach: (string, string) -> Outcome<Error>,
    applyAcls: (Hns.Endpoint, seq<Hns.AclPolicy>) -> Outcome<Error>)

  /** An operation's Go result together with the calls it made, in order. */
  datatype Run<+T> = Run(result: T, calls: seq<Call>)

  /** The Windows Firewall protocol number each named protocol of a net-out rule stands for. */
  const FIREWALL_PROTOCOL: map<NetRules.Protocol, int> :=
    map[NetRules.PROTOCOL_ALL := Firewall.NET_FW_IP_PROTOCOL_ANY, NetRules.PROTOCOL_TCP := Firewall.NET_FW_IP_PROTOCOL_TCP,
        NetRules.PROTOCOL_UDP := Firewall.NET_FW_IP_PROTOCOL_UDP, NetRules.PROTOCOL_ICMP := Firewall.NET_FW_IP_PROTOCOL_ICMP]

  /** Only TCP and UDP rules carry remote ports. */
  predicate HasPorts(p: NetRules.Protocol)
  {
    p == NetRules.PROTOCOL_TCP || p == NetRules.PROTOCOL_UDP
  }

  /** The named protocols are exactly the table's keys, and the port-carrying ones are exactly
   *  those whose firewall number the native helper accepts port filters for. */
  lemma ProtocolTable(p: NetRules.Protocol)
    ensures p in FIREWALL_PROTOCOL <==> p <= NetRules.PROTOCOL_ICMP
    ensures p in FIREWALL_PROTOCOL ==> (HasPorts(p) <==> Firewall.Dll.PortAllowed(FIREWALL_PROTOCOL[p]))
  {
    Firewall.ProtocolCodes();
  }

  /** The text of `fmt.Errorf("invalid protocol: %d", p)`. */
  function InvalidProtocol(p: NetRules.Protocol): (e: Error)
    ensures e.Msg? && StartsWith(e.text, "invalid protocol: ")
  {
    Msg("invalid protocol: " + Decimal(p))
  }

  /** The netsh arguments that reserve an HTTP URL on a port for the Users group. */
  function OpenPortArgs(port: nat): (args: seq<string>)
    ensures |args| == 5 && args[..3] == ["http", "add", "urlacl"] && args[4] == "user=Users"
  {
    ["http", "add", "urlacl", "url=http://*:" + Decimal(port) + "/", "user=Users"]
  }

  /** Different ports reserve different URLs. */
  lemma OpenPortArgsInjective(p: nat, q: nat)
    ensures OpenPortArgs(p) == OpenPortArgs(q) ==> p == q
  {
    if OpenPortArgs(p) == OpenPortArgs(q) {
      var u := "url=http://*:";
      assert OpenPortArgs(p)[3] == OpenPortArgs(q)[3];
      assert (u + Decimal(p) + "/")[|u|..|u| + |Decimal(p)|] == Decimal(p);
      assert (u + Decimal(q) + "/")[|u|..|u| + |Decimal(q)|] == Decimal(q);
      DecimalInjective(p, q);
    }
  }

  /** `fmt.Sprintf("vEthernet (%s)", name)`, the alias Windows gives a virtual adapter. */
  function VEthernet(name: string): (alias: string)
    ensures StartsWith(alias, "vEthernet (") && alias[|alias| - 1] == ')'
    ensures alias[11..|alias| - 1] == name
  {
    "vEthernet (" + name + ")"
  }

  /** Distinct names give distinct aliases. */
  lemma VEthernetInjective(m: string, n: string)
    ensures VEthernet(m) == VEthernet(n) ==> m == n
  {
  }
}
