/** The network manager behind `winc-network`: it creates and deletes the host's NAT network, and
 *  brings a container's networking up by applying its net-in rules, its net-out rules and its
 *  MTU, in that order, through whichever rule applier it was built with. */
module NetworkManager {
  import opened Wrappers
  import opened Errors
  import opened Text
  import opened Host
  import Hns
  import NetRules
  import NatEndpointManager

  datatype Config = Config(mtu: int, networkName: string, subnetRange: string, gatewayAddress: string, dnsServers: seq<string>)

  datatype Manager = Manager(containerId: string, config: Config)

  /** `NetRuleApplier`: the applier's answer to each request. */
  datatype RuleApplier = RuleApplier(
    applyIn: (NetRules.NetIn, Hns.Endpoint) -> Result<NetRules.PortMapping, Error>,
    applyOut: (NetRules.NetOut, Hns.Endpoint) -> Outcome<Error>,
    applyMtu: (string, int) -> Outcome<Error>,
    cleanup: Outcome<Error>)

  /** What `Up` asks, of the HNS client and of the applier, in order. */
  datatype Step =
    | HostCall(call: Call)
    | ApplyIn(inRule: NetRules.NetIn)
    | ApplyOut(outRule: NetRules.NetOut)
    | ApplyMtu(interfaceId: string, mtu: int)

  datatype Traced<+T> = Traced(result: T, steps: seq<Step>)

  datatype UpInputs = UpInputs(netOut: seq<NetRules.NetOut>, netIn: seq<NetRules.NetIn>)

  /** `UpOutputs.Properties`; the mapped ports are kept as the list `json.Marshal` encodes. */
  datatype UpOutputs = UpOutputs(containerIP: string, deprecatedHostIP: string, mappedPorts: seq<NetRules.PortMapping>)

  const DEPRECATED_HOST_IP: string := "255.255.255.255"

  // ---------------------------------------------------------------------------------------
  // The host NAT network
  // ---------------------------------------------------------------------------------------

  function ConfigSubnet(n: Manager): Hns.Subnet
  {
    Hns.Subnet(n.config.subnetRange, n.config.gatewayAddress)
  }

  /** `subnetsMatch`. */
  predicate SubnetsMatch(a: Hns.Subnet, b: Hns.Subnet)
  {
    a.addressPrefix == b.addressPrefix && a.gatewayAddress == b.gatewayAddress
  }

  /** Two subnets match exactly when they are the same subnet. */
  lemma SubnetsMatchIsEquality(a: Hns.Subnet, b: Hns.Subnet)
    ensures SubnetsMatch(a, b) <==> a == b
  {
  }

  /** The network `CreateHostNATNetwork` asks HNS for. */
  function HostNatNetwork(n: Manager): (net: Hns.Network)
    ensures net.name == n.config.networkName && net.kind == "nat" && net.subnets == [ConfigSubnet(n)]
    ensures net.dnsServerList == "" <==> |n.config.dnsServers| == 0 || Join(n.config.dnsServers, ",") == ""
  {
    Hns.Network("", n.config.networkName, "nat", [ConfigSubnet(n)],
                if |n.config.dnsServers| > 0 then Join(n.config.dnsServers, ",") else "")
  }

  /** `CreateHostNATNetwork`: a lookup error other than "not found" is returned; an existing
   *  network is accepted only with exactly the configured subnet; a missing one is created. */
  function CreateHostNATNetwork(n: Manager, h: Answers): (out: Run<Outcome<Error>>)
    ensures |out.calls| >= 1 && out.calls[0] == GetNetworkByName(n.config.networkName)
    ensures var found := h.networkByName(n.config.networkName, 0);
            (found.Failure? && !NatEndpointManager.NetworkMissing(n.config.networkName, found.error) ==>
               out == Run(Fail(found.error), [GetNetworkByName(n.config.networkName)]))
            && (found.Success? ==>
                  out.calls == [GetNetworkByName(n.config.networkName)]
                  && (out.result.Pass? <==> found.value.subnets == [ConfigSubnet(n)])
                  && (out.result.Fail? ==> out.result.error == SameNatNetworkName(n.config.networkName)))
            && (found.Failure? && NatEndpointManager.NetworkMissing(n.config.networkName, found.error) ==>
                  out.calls == [GetNetworkByName(n.config.networkName), CreateNetwork(HostNatNetwork(n))]
                  && (out.result.Pass? <==> h.createNetwork(HostNatNetwork(n), 0).Success?))
    ensures forall c :: c in out.calls && c.CreateNetwork? ==> h.networkByName(n.config.networkName, 0).Failure?
  {
    var found := h.networkByName(n.config.networkName, 0);
    var lookup := [GetNetworkByName(n.config.networkName)];
    if found.Failure? && !NatEndpointManager.NetworkMissing(n.config.networkName, found.error) then
      Run(Fail(found.error), lookup)
    else if found.Success? then
      var existing := found.value;
      if |existing.subnets| == 1 && SubnetsMatch(existing.subnets[0], ConfigSubnet(n)) then Run(Pass, lookup)
      else Run(Fail(SameNatNetworkName(n.config.networkName)), lookup)
    else
      var created := h.createNetwork(HostNatNetwork(n), 0);
      Run(if created.Failure? then Fail(created.error) else Pass, lookup + [CreateNetwork(HostNatNetwork(n))])
  }

  /** Once HNS reports the network that a first call created, a second call accepts it without
   *  creating anything: creating the host network is idempotent. */
  lemma CreateHostNATNetworkIdempotent(n: Manager, h: Answers, h': Answers)
    requires CreateHostNATNetwork(n, h).calls == [GetNetworkByName(n.config.networkName), CreateNetwork(HostNatNetwork(n))]
    requires CreateHostNATNetwork(n, h).result.Pass?
    requires h'.networkByName(n.config.networkName, 0) == h.createNetwork(HostNatNetwork(n), 0)
    requires h.createNetwork(HostNatNetwork(n), 0).Success?
    requires h.createNetwork(HostNatNetwork(n), 0).value.subnets == HostNatNetwork(n).subnets
    ensures CreateHostNATNetwork(n, h') == Run(Pass, [GetNetworkByName(n.config.networkName)])
  {
  }

  /** `DeleteHostNATNetwork`: a network that is already gone is not an error. */
  function DeleteHostNATNetwork(n: Manager, h: Answers): (out: Run<Outcome<Error>>)
    ensures var found := h.networkByName(n.config.networkName, 0);
            (found.Failure? && Message(found.error) == "Network " + n.config.networkName + " not found" ==>
               out == Run(Pass, [GetNetworkByName(n.config.networkName)]))
            && (found.Failure? && Message(found.error) != "Network " + n.config.networkName + " not found" ==>
                  out == Run(Fail(found.error), [GetNetworkByName(n.config.networkName)]))
            && (found.Success? ==>
                  out == Run(h.deleteNetwork(found.value), [GetNetworkByName(n.config.networkName), DeleteNetwork(found.value.id)]))
  {
    var found := h.networkByName(n.config.networkName, 0);
    if found.Failure? then
      Run(if Message(found.error) == "Network " + n.config.networkName + " not found" then Pass else Fail(found.error),
          [GetNetworkByName(n.config.networkName)])
    else
      Run(h.deleteNetwork(found.value), [GetNetworkByName(n.config.networkName), DeleteNetwork(found.value.id)])
  }

  // ---------------------------------------------------------------------------------------
  // Up and Down
  // ---------------------------------------------------------------------------------------

  /** The index of the first net-in rule the applier refuses, or the number of rules. */
  function FirstFailedIn(rules: seq<NetRules.NetIn>, ep: Hns.Endpoint, ap: RuleApplier): (i: nat)
    ensures i <= |rules|
    ensures forall k :: 0 <= k < i ==> ap.applyIn(rules[k], ep).Success?
    ensures i < |rules| ==> ap.applyIn(rules[i], ep).Failure?
    decreases |rules|
  {
    if |rules| == 0 || ap.applyIn(rules[0], ep).Failure? then 0
    else 1 + FirstFailedIn(rules[1..], ep, ap)
  }

  /** The index of the first net-out rule the applier refuses, or the number of rules. */
  function FirstFailedOut(rules: seq<NetRules.NetOut>, ep: Hns.Endpoint, ap: RuleApplier): (i: nat)
    ensures i <= |rules|
    ensures forall k :: 0 <= k < i ==> ap.applyOut(rules[k], ep).Pass?
    ensures i < |rules| ==> ap.applyOut(rules[i], ep).Fail?
    decreases |rules|
  {
    if |rules| == 0 || ap.applyOut(rules[0], ep).Fail? then 0
    else 1 + FirstFailedOut(rules[1..], ep, ap)
  }

  function InSteps(rules: seq<NetRules.NetIn>): (s: seq<Step>)
    ensures |s| == |rules| && forall k :: 0 <= k < |rules| ==> s[k] == ApplyIn(rules[k])
  {
    seq(|rules|, k requires 0 <= k < |rules| => ApplyIn(rules[k]))
  }

  function OutSteps(rules: seq<NetRules.NetOut>): (s: seq<Step>)
    ensures |s| == |rules| && forall k :: 0 <= k < |rules| ==> s[k] == ApplyOut(rules[k])
  {
    seq(|rules|, k requires 0 <= k < |rules| => ApplyOut(rules[k]))
  }

  /** Everything `Up` asks when nothing fails. */
  function Schedule(n: Manager, inputs: UpInputs): seq<Step>
  {
    [HostCall(GetEndpointByName(n.containerId))] + InSteps(inputs.netIn) + OutSteps(inputs.netOut)
    + [ApplyMtu(n.containerId, n.config.mtu), HostCall(LocalIP)]
  }

  /** Whether the answer to a step lets `Up` go on. */
  predicate Succeeds(s: Step, n: Manager, h: Answers, ap: RuleApplier)
  {
    var endpoint := h.endpointByName(n.containerId);
    match s
    case HostCall(c) => (c.GetEndpointByName? ==> endpoint.Success?) && (c.LocalIP? ==> h.localIP.Success?)
    case ApplyIn(r) => endpoint.Success? && ap.applyIn(r, endpoint.value).Success?
    case ApplyOut(r) => endpoint.Success? && ap.applyOut(r, endpoint.value).Pass?
    case ApplyMtu(i, m) => ap.applyMtu(i, m).Pass?
  }

  /** `Up`: at most two net-in rules; the container's endpoint is looked up by name; then every
   *  net-in rule, every net-out rule and the MTU are applied, stopping at the first error; the
   *  outputs carry the local IP, the fixed deprecated host IP and the mappings in rule order. */
  function Up(n: Manager, inputs: UpInputs, h: Answers, ap: RuleApplier): (out: Traced<Result<UpOutputs, Error>>)
    ensures |inputs.netIn| > 2 ==>
              out == Traced(Failure(Msg("invalid number of port mappings: " + Decimal(|inputs.netIn|))), [])
    ensures |inputs.netIn| <= 2 ==> |out.steps| >= 1
    ensures out.result.Success? ==>
              out.steps == Schedule(n, inputs)
              && h.localIP == Success(out.result.value.containerIP)
              && h.endpointByName(n.containerId).Success?
              && out.result.value.deprecatedHostIP == DEPRECATED_HOST_IP
              && |out.result.value.mappedPorts| == |inputs.netIn|
              && forall k :: 0 <= k < |inputs.netIn| ==>
                   ap.applyIn(inputs.netIn[k], h.endpointByName(n.containerId).value) == Success(out.result.value.mappedPorts[k])
  {
    var lookup := [HostCall(GetEndpointByName(n.containerId))];
    if |inputs.netIn| > 2 then Traced(Failure(Msg("invalid number of port mappings: " + Decimal(|inputs.netIn|))), [])
    else
      var endpoint := h.endpointByName(n.containerId);
      if endpoint.Failure? then Traced(Failure(endpoint.error), lookup)
      else
        var ep := endpoint.value;
        var i := FirstFailedIn(inputs.netIn, ep, ap);
        if i < |inputs.netIn| then
          assert inputs.netIn[..i + 1] <= inputs.netIn;
          Traced(Failure(ap.applyIn(inputs.netIn[i], ep).error), lookup + InSteps(inputs.netIn[..i + 1]))
        else
          var mapped := seq(|inputs.netIn|, k requires 0 <= k < |inputs.netIn| => ap.applyIn(inputs.netIn[k], ep).value);
          var j := FirstFailedOut(inputs.netOut, ep, ap);
          if j < |inputs.netOut| then
            Traced(Failure(ap.applyOut(inputs.netOut[j], ep).error), lookup + InSteps(inputs.netIn) + OutSteps(inputs.netOut[..j + 1]))
          else
            var applied := lookup + InSteps(inputs.netIn) + OutSteps(inputs.netOut) + [ApplyMtu(n.containerId, n.config.mtu)];
            var mtu := ap.applyMtu(n.containerId, n.config.mtu);
            if mtu.Fail? then Traced(Failure(mtu.error), applied)
            else if h.localIP.Failure? then Traced(Failure(h.localIP.error), applied + [HostCall(LocalIP)])
            else Traced(Success(UpOutputs(h.localIP.value, DEPRECATED_HOST_IP, mapped)), applied + [HostCall(LocalIP)])
  }

  /** `Up` asks its requests in the order of the schedule and never asks one beyond it. */
  lemma UpFollowsSchedule(n: Manager, inputs: UpInputs, h: Answers, ap: RuleApplier)
    requires |inputs.netIn| <= 2
    ensures Up(n, inputs, h, ap).steps <= Schedule(n, inputs)
  {
    var lookup := [HostCall(GetEndpointByName(n.containerId))];
    var endpoint := h.endpointByName(n.containerId);
    if endpoint.Success? {
      var ep := endpoint.value;
      var i := FirstFailedIn(inputs.netIn, ep, ap);
      var ins := InSteps(inputs.netIn);
      var outs := OutSteps(inputs.netOut);
      var tail := [ApplyMtu(n.containerId, n.config.mtu), HostCall(LocalIP)];
      assert Schedule(n, inputs) == lookup + ins + outs + tail;
      if i < |inputs.netIn| {
        assert InSteps(inputs.netIn[..i + 1]) <= ins;
      } else {
        var j := FirstFailedOut(inputs.netOut, ep, ap);
        if j < |inputs.netOut| {
          assert OutSteps(inputs.netOut[..j + 1]) <= outs;
        }
      }
    }
  }

  /** `Up` goes on exactly as long as each step succeeds: every step it took before the last one
   *  succeeded, and it fails exactly when its last step did. */
  lemma {:induction false} UpStopsAtFirstFailure(n: Manager, inputs: UpInputs, h: Answers, ap: RuleApplier)
    requires |inputs.netIn| <= 2
    ensures var out := Up(n, inputs, h, ap);
            (forall k :: 0 <= k < |out.steps| - 1 ==> Succeeds(out.steps[k], n, h, ap))
            && (out.result.Success? <==> Succeeds(out.steps[|out.steps| - 1], n, h, ap))
  {
    var endpoint := h.endpointByName(n.containerId);
    if endpoint.Success? {
      var ep := endpoint.value;
      var i := FirstFailedIn(inputs.netIn, ep, ap);
      if i < |inputs.netIn| {
        StopsAtNetIn(n, inputs, h, ap);
      } else if FirstFailedOut(inputs.netOut, ep, ap) < |inputs.netOut| {
        StopsAtNetOut(n, inputs, h, ap);
      } else {
        StopsAfterRules(n, inputs, h, ap);
      }
    }
  }

  /** The case of `UpStopsAtFirstFailure` where a net-in rule is refused. */
  lemma StopsAtNetIn(n: Manager, inputs: UpInputs, h: Answers, ap: RuleApplier)
    requires |inputs.netIn| <= 2 && h.endpointByName(n.containerId).Success?
    requires FirstFailedIn(inputs.netIn, h.endpointByName(n.containerId).value, ap) < |inputs.netIn|
    ensures var out := Up(n, inputs, h, ap);
            (forall k :: 0 <= k < |out.steps| - 1 ==> Succeeds(out.steps[k], n, h, ap))
            && (out.result.Success? <==> Succeeds(out.steps[|out.steps| - 1], n, h, ap))
  {
    var ep := h.endpointByName(n.containerId).value;
    var i := FirstFailedIn(inputs.netIn, ep, ap);
    var out := Up(n, inputs, h, ap);
    var ins := InSteps(inputs.netIn[..i + 1]);
    assert out.steps == [HostCall(GetEndpointByName(n.containerId))] + ins;
    forall k | 1 <= k < |out.steps|
      ensures out.steps[k] == ApplyIn(inputs.netIn[k - 1])
    {
      assert out.steps[k] == ins[k - 1];
    }
  }

  /** The case of `UpStopsAtFirstFailure` where a net-out rule is refused. */
  lemma StopsAtNetOut(n: Manager, inputs: UpInputs, h: Answers, ap: RuleApplier)
    requires |inputs.netIn| <= 2 && h.endpointByName(n.containerId).Success?
    requires FirstFailedIn(inputs.netIn, h.endpointByName(n.containerId).value, ap) == |inputs.netIn|
    requires FirstFailedOut(inputs.netOut, h.endpointByName(n.containerId).value, ap) < |inputs.netOut|
    ensures var out := Up(n, inputs, h, ap);
            (forall k :: 0 <= k < |out.steps| - 1 ==> Succeeds(out.steps[k], n, h, ap))
            && (out.result.Success? <==> Succeeds(out.steps[|out.steps| - 1], n, h, ap))
  {
    var ep := h.endpointByName(n.containerId).value;
    var j := FirstFailedOut(inputs.netOut, ep, ap);
    var out := Up(n, inputs, h, ap);
    var ins := InSteps(inputs.netIn);
    var outs := OutSteps(inputs.netOut[..j + 1]);
    var m := |inputs.netIn|;
    assert out.steps == [HostCall(GetEndpointByName(n.containerId))] + ins + outs;
    forall k | 1 <= k < 1 + m
      ensures out.steps[k] == ApplyIn(inputs.netIn[k - 1])
    {
      assert out.steps[k] == ins[k - 1];
    }
    forall k | 1 + m <= k < |out.steps|
      ensures out.steps[k] == ApplyOut(inputs.netOut[k - 1 - m])
    {
      assert out.steps[k] == outs[k - 1 - m];
    }
  }

  /** The case of `UpStopsAtFirstFailure` where every rule is applied. */
  lemma StopsAfterRules(n: Manager, inputs: UpInputs, h: Answers, ap: RuleApplier)
    requires |inputs.netIn| <= 2 && h.endpointByName(n.containerId).Success?
    requires FirstFailedIn(inputs.netIn, h.endpointByName(n.containerId).value, ap) == |inputs.netIn|
    requires FirstFailedOut(inputs.netOut, h.endpointByName(n.containerId).value, ap) == |inputs.netOut|
    ensures var out := Up(n, inputs, h, ap);
            (forall k :: 0 <= k < |out.steps| - 1 ==> Succeeds(out.steps[k], n, h, ap))
            && (out.result.Success? <==> Succeeds(out.steps[|out.steps| - 1], n, h, ap))
  {
    var out := Up(n, inputs, h, ap);
    var ins := InSteps(inputs.netIn);
    var outs := OutSteps(inputs.netOut);
    var m := |inputs.netIn|;
    var applied := [HostCall(GetEndpointByName(n.containerId))] + ins + outs + [ApplyMtu(n.containerId, n.config.mtu)];
    assert out.steps == applied || out.steps == applied + [HostCall(LocalIP)];
    assert out.steps[..|applied|] == applied;
    forall k | 1 <= k < 1 + m
      ensures out.steps[k] == ApplyIn(inputs.netIn[k - 1])
    {
      assert out.steps[k] == applied[k] == ins[k - 1];
    }
    forall k | 1 + m <= k < 1 + m + |outs|
      ensures out.steps[k] == ApplyOut(inputs.netOut[k - 1 - m])
    {
      assert out.steps[k] == applied[k] == outs[k - 1 - m];
    }
  }

  /** `Up` succeeds exactly when every request on its schedule succeeds. */
  lemma UpSucceedsIff(n: Manager, inputs: UpInputs, h: Answers, ap: RuleApplier)
    requires |inputs.netIn| <= 2
    ensures Up(n, inputs, h, ap).result.Success? <==>
              forall k :: 0 <= k < |Schedule(n, inputs)| ==> Succeeds(Schedule(n, inputs)[k], n, h, ap)
  {
    var out := Up(n, inputs, h, ap);
    var s := Schedule(n, inputs);
    UpStopsAtFirstFailure(n, inputs, h, ap);
    UpFollowsSchedule(n, inputs, h, ap);
    if forall k :: 0 <= k < |s| ==> Succeeds(s[k], n, h, ap) {
      var last := |out.steps| - 1;
      assert out.steps[last] == s[last];
    }
  }

  /** `Down`: the applier's cleanup, unchanged. */
  function Down(n: Manager, ap: RuleApplier): (r: Outcome<Error>)
    ensures r.Pass? <==> ap.cleanup.Pass?
    ensures r.Fail? ==> r.error == ap.cleanup.error
  {
    ap.cleanup
  }
}
