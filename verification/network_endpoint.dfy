/** The endpoint manager of the network plugin: it creates a container's HNS endpoint, attaches
 *  it, removes the firewall rule Windows generates for the endpoint's compartment, adds NAT
 *  mappings, and deletes the endpoint again. The two build variants of the post-attach step
 *  (firewall and ACL) are modelled side by side. */
module NetworkEndpoint {
  import opened Wrappers
  import opened Errors
  import opened Text
  import opened Host
  import Hns
  import NetRules
  import Words
  import Retry
  import Firewall

  /** The parts of `network.Config` this manager reads. */
  datatype Config = Config(networkName: string, maximumOutgoingBandwidth: int, dnsServers: seq<string>)

  datatype Manager = Manager(containerId: string, config: Config)

  const UNSPECIFIED_ERROR: string := "HNS failed with error : Unspecified error"
  const NO_RULES_MATCH: string := "No rules match the specified criteria"
  const ErrNatNotInitialized: Error := Msg("NAT not initialized in time")

  /** The one HNS failure `createEndpoint` tries again on, matched on its exact text. */
  predicate Unspecified(e: Error) { Message(e) == UNSPECIFIED_ERROR }

  /** The netsh failure the rule delete tries again on, matched anywhere in its text. */
  predicate NoRulesMatch(e: Error) { Contains(Message(e), NO_RULES_MATCH) }

  // ---------------------------------------------------------------------------------------
  // Creating and attaching
  // ---------------------------------------------------------------------------------------

  /** `createEndpoint`: up to three attempts, and another only after the unspecified error. */
  function CreateEndpointRetry(endpoint: Hns.Endpoint, h: Answers): (out: Run<Result<Hns.Endpoint, Error>>)
    ensures 1 <= |out.calls| <= 3 && forall c :: c in out.calls ==> c == CreateEndpoint(endpoint)
    ensures out.result == h.createEndpoint(endpoint, |out.calls| - 1)
    ensures forall i :: 0 <= i < |out.calls| - 1 ==>
              h.createEndpoint(endpoint, i).Failure? && Unspecified(h.createEndpoint(endpoint, i).error)
    ensures out.result.Failure? && Unspecified(out.result.error) ==> |out.calls| == 3
  {
    var r := Retry.Loop((i: nat) => h.createEndpoint(endpoint, i), Unspecified, 3);
    Run(r.0, seq(r.1, _ => CreateEndpoint(endpoint)))
  }

  /** The endpoint `Create` asks HNS for: named after the container, on the network, with a QoS
   *  policy only when a bandwidth limit is configured, and the DNS servers comma-joined. */
  function Request(m: Manager, networkId: string): (e: Hns.Endpoint)
    ensures e.name == m.containerId && e.virtualNetwork == networkId && e.id == ""
    ensures |e.policies| > 0 <==> m.config.maximumOutgoingBandwidth != 0
    ensures forall p :: p in e.policies ==> p == Hns.QosPolicy(Words.Uint64(m.config.maximumOutgoingBandwidth))
    ensures |m.config.dnsServers| > 0 ==> e.dnsServerList == Join(m.config.dnsServers, ",")
    ensures |m.config.dnsServers| == 0 ==> e.dnsServerList == ""
  {
    var qos := if m.config.maximumOutgoingBandwidth != 0
               then [Hns.QosPolicy(Words.Uint64(m.config.maximumOutgoingBandwidth))] else [];
    Hns.NewEndpoint(m.containerId, networkId, qos, m.config.dnsServers)
  }

  /** The compartment and port GUID of the first EndpointPort allocator; zero and empty without one. */
  function EndpointPortOf(allocators: seq<Hns.Allocator>): (r: (NetRules.Uint32, string))
    ensures Hns.FirstOfKind(allocators, Hns.EndpointPort) == |allocators| ==> r == (0, "")
  {
    var i := Hns.FirstOfKind(allocators, Hns.EndpointPort);
    if i < |allocators| then (allocators[i].compartmentId, allocators[i].endpointPortGuid) else (0, "")
  }

  /** The rejection of an endpoint without an EndpointPort allocator: the id is the one the caller
   *  holds, the allocators are those just loaded. */
  function InvalidEndpoint(id: string, allocators: seq<Hns.Allocator>): (err: Error)
    ensures err.Msg? && StartsWith(err.text, "invalid endpoint " + id + " allocators: [")
  {
    Msg("invalid endpoint " + id + " allocators: [" + Hns.AllocatorsText(allocators) + "]")
  }

  /** `fmt.Sprintf("Compartment %d - %s", id, guid)`, the name Windows gives the rule it generates. */
  function RuleName(compartmentId: NetRules.Uint32, guid: string): (name: string)
    ensures StartsWith(name, "Compartment ") && |name| >= |guid| && name[|name| - |guid|..] == guid
  {
    "Compartment " + (Decimal(compartmentId) + (" - " + guid))
  }

  /** Rule names determine their compartment and GUID. */
  lemma RuleNameInjective(c: NetRules.Uint32, g: string, d: NetRules.Uint32, k: string)
    requires RuleName(c, g) == RuleName(d, k)
    ensures c == d && g == k
  {
    var t := RuleName(c, g)[12..];
    assert t == Decimal(c) + (" - " + g);
    assert t == Decimal(d) + (" - " + k);
    DecimalPrefix(Decimal(c), " - " + g);
    DecimalPrefix(Decimal(d), " - " + k);
    assert Decimal(c) == t[..|Decimal(c)|];
    assert Decimal(d) == t[..|Decimal(d)|];
    DecimalInjective(c, d);
    assert " - " + g == t[|Decimal(c)|..] == " - " + k;
    assert g == (" - " + g)[3..];
  }

  /** A run of digits ends at the first space after it. */
  lemma DecimalPrefix(digits: string, rest: string)
    requires AllDigits(digits) && |rest| > 0 && rest[0] == ' '
    ensures ' ' in digits + rest && IndexOf(digits + rest, ' ') == |digits|
  {
    var s := digits + rest;
    assert s[|digits|] == ' ';
    var k := IndexOf(s, ' ');
    if k < |digits| {
      assert s[k] == digits[k];
    }
  }

  function DeleteRuleArgs(ruleName: string): seq<string>
  {
    ["advfirewall", "firewall", "delete", "rule", "name=" + ruleName]
  }

  /** `deleteFirewallRule` (netsh): up to three deletes, another only while netsh reports that no
   *  rule matches yet; the result is the last failure, or nil once a delete goes through. */
  function DeleteFirewallRule(ruleName: string, h: Answers): (out: Run<Outcome<Error>>)
    ensures 1 <= |out.calls| <= 3 && forall c :: c in out.calls ==> c == RunHost(DeleteRuleArgs(ruleName))
    ensures out.result.Pass? <==> h.runHostAgain(DeleteRuleArgs(ruleName), |out.calls| - 1).Success?
    ensures out.result.Fail? ==> out.result.error == h.runHostAgain(DeleteRuleArgs(ruleName), |out.calls| - 1).error
    ensures forall i :: 0 <= i < |out.calls| - 1 ==>
              h.runHostAgain(DeleteRuleArgs(ruleName), i).Failure?
              && NoRulesMatch(h.runHostAgain(DeleteRuleArgs(ruleName), i).error)
    ensures out.result.Fail? && NoRulesMatch(out.result.error) ==> |out.calls| == 3
  {
    var args := DeleteRuleArgs(ruleName);
    var r := Retry.Loop((i: nat) => h.runHostAgain(args, i), NoRulesMatch, 3);
    Run(if r.0.Success? then Pass else Fail(r.0.error), seq(r.1, _ => RunHost(args)))
  }

  /** `attachEndpoint`: hot-attach, reload the endpoint, and delete the compartment's generated
   *  firewall rule; an endpoint without a compartment and GUID is rejected. */
  function AttachEndpoint(m: Manager, created: Hns.Endpoint, h: Answers): (out: Run<Result<Hns.Endpoint, Error>>)
    ensures |out.calls| >= 1 && out.calls[0] == HotAttach(m.containerId, created.id)
    ensures h.hotAttach(m.containerId, created.id).Fail? ==>
              out == Run(Failure(h.hotAttach(m.containerId, created.id).error), [HotAttach(m.containerId, created.id)])
    ensures out.result.Success? ==>
              var loaded := h.endpointById(created.id, 0);
              loaded.Success? && out.result.value == loaded.value
              && var (c, g) := EndpointPortOf(loaded.value.allocators);
                 c != 0 && g != "" && |out.calls| >= 3 && out.calls[2] == RunHost(DeleteRuleArgs(RuleName(c, g)))
    ensures var loaded := h.endpointById(created.id, 0);
            h.hotAttach(m.containerId, created.id).Pass? && loaded.Success?
            && (EndpointPortOf(loaded.value.allocators).0 == 0 || EndpointPortOf(loaded.value.allocators).1 == "") ==>
              out.result == Failure(InvalidEndpoint(created.id, loaded.value.allocators))
    ensures forall c :: c in out.calls ==> !c.DeleteEndpoint? && !c.CreateEndpoint?
  {
    var attached := h.hotAttach(m.containerId, created.id);
    if attached.Fail? then Run(Failure(attached.error), [HotAttach(m.containerId, created.id)])
    else
      var calls := [HotAttach(m.containerId, created.id), GetEndpointById(created.id)];
      var loaded := h.endpointById(created.id, 0);
      if loaded.Failure? then Run(Failure(loaded.error), calls)
      else
        var (c, g) := EndpointPortOf(loaded.value.allocators);
        if c == 0 || g == "" then Run(Failure(InvalidEndpoint(created.id, loaded.value.allocators)), calls)
        else
          var deleted := DeleteFirewallRule(RuleName(c, g), h);
          Run(if deleted.result.Fail? then Failure(deleted.result.error) else Success(loaded.value), calls + deleted.calls)
  }

  /** Creating the endpoint on the network and attaching it. */
  function CreateOnNetwork(m: Manager, networkId: string, h: Answers): (out: Run<Result<Hns.Endpoint, Error>>)
    ensures var created := CreateEndpointRetry(Request(m, networkId), h);
            |created.calls| <= |out.calls| && out.calls[..|created.calls|] == created.calls
            && (created.result.Failure? ==> out == created)
  {
    var created := CreateEndpointRetry(Request(m, networkId), h);
    if created.result.Failure? then created
    else
      var attached := AttachEndpoint(m, created.result.value, h);
      if attached.result.Success? then Run(attached.result, created.calls + attached.calls)
      else Run(attached.result, created.calls + attached.calls + [DeleteEndpoint(created.result.value.id)])
  }

  /** Once the endpoint exists the result is the attach's; a failed attach deletes the endpoint
   *  again as the last step, and a successful one deletes nothing. */
  lemma CreateOnNetworkCleansUp(m: Manager, networkId: string, h: Answers)
    requires CreateEndpointRetry(Request(m, networkId), h).result.Success?
    ensures var id := CreateEndpointRetry(Request(m, networkId), h).result.value.id;
            var out := CreateOnNetwork(m, networkId, h);
            out.result == AttachEndpoint(m, CreateEndpointRetry(Request(m, networkId), h).result.value, h).result
            && (out.result.Success? ==> DeleteEndpoint(id) !in out.calls)
            && (out.result.Failure? ==> out.calls[|out.calls| - 1] == DeleteEndpoint(id))
  {
  }

  /** `EndpointManager.Create`: the network is looked up first and its error returned. */
  function Create(m: Manager, h: Answers): (out: Run<Result<Hns.Endpoint, Error>>)
    ensures |out.calls| >= 1 && out.calls[0] == GetNetworkByName(m.config.networkName)
    ensures h.networkByName(m.config.networkName, 0).Failure? ==>
              out == Run(Failure(h.networkByName(m.config.networkName, 0).error), [GetNetworkByName(m.config.networkName)])
    ensures h.networkByName(m.config.networkName, 0).Success? ==>
              out.calls[1..] == CreateOnNetwork(m, h.networkByName(m.config.networkName, 0).value.id, h).calls
              && out.result == CreateOnNetwork(m, h.networkByName(m.config.networkName, 0).value.id, h).result
  {
    var net := h.networkByName(m.config.networkName, 0);
    if net.Failure? then Run(Failure(net.error), [GetNetworkByName(m.config.networkName)])
    else
      var inner := CreateOnNetwork(m, net.value.id, h);
      Run(inner.result, [GetNetworkByName(m.config.networkName)] + inner.calls)
  }

  // ---------------------------------------------------------------------------------------
  // Port mappings
  // ---------------------------------------------------------------------------------------

  /** One NAT policy per mapping, in the mappings' order. */
  function MappingPolicies(mappings: seq<NetRules.PortMapping>): (ps: seq<Hns.Policy>)
    ensures |ps| == |mappings| && forall i :: 0 <= i < |ps| ==> ps[i] == Hns.MappingPolicy(mappings[i])
  {
    seq(|mappings|, i requires 0 <= i < |mappings| => Hns.MappingPolicy(mappings[i]))
  }

  predicate HasNat(e: Hns.Endpoint)
  {
    Hns.FirstOfKind(e.allocators, Hns.Nat) < |e.allocators|
  }

  /** The NAT poll from round `i` on. As the code is written a failed lookup leaves a nil
   *  endpoint that the allocator scan dereferences; `asWritten` chooses that reading, otherwise
   *  the lookup's error is returned. */
  function PollNat(id: string, h: Answers, i: nat, asWritten: bool): (out: Run<Completion<Result<Hns.Endpoint, Error>>>)
    requires i <= 10
    ensures |out.calls| <= 10 - i && forall c :: c in out.calls ==> c == GetEndpointById(id)
    ensures !asWritten ==> out.result.Returned?
    ensures out.result == Panicked ==> |out.calls| > 0 && h.endpointById(id, i + |out.calls| - 1).Failure?
    ensures out.result.Returned? && out.result.value.Success? ==>
              |out.calls| > 0 && h.endpointById(id, i + |out.calls| - 1) == out.result.value && HasNat(out.result.value.value)
    ensures forall j :: i <= j < i + |out.calls| - 1 ==> h.endpointById(id, j).Success? && !HasNat(h.endpointById(id, j).value)
    ensures out.result == Returned(Failure(ErrNatNotInitialized)) ==>
              |out.calls| == 10 - i
              || (!asWritten && |out.calls| > 0 && h.endpointById(id, i + |out.calls| - 1) == Failure(ErrNatNotInitialized))
    decreases 10 - i
  {
    if i == 10 then Run(Returned(Failure(ErrNatNotInitialized)), [])
    else
      var found := h.endpointById(id, i);
      if found.Failure? then Run(if asWritten then Panicked else Returned(Failure(found.error)), [GetEndpointById(id)])
      else if HasNat(found.value) then Run(Returned(Success(found.value)), [GetEndpointById(id)])
      else
        var rest := PollNat(id, h, i + 1, asWritten);
        Run(rest.result, [GetEndpointById(id)] + rest.calls)
  }

  /** The shape both readings of `ApplyMappings` share: nothing to do without mappings; otherwise
   *  the NAT policies are appended, the endpoint updated and then polled. */
  function ApplyMappingsWith(endpoint: Hns.Endpoint, mappings: seq<NetRules.PortMapping>, h: Answers, asWritten: bool)
    : (out: Run<Completion<Result<Hns.Endpoint, Error>>>)
    ensures |mappings| == 0 ==> out == Run(Returned(Success(endpoint)), [])
    ensures |mappings| > 0 ==>
              1 <= |out.calls| <= 11
              && out.calls[0] == UpdateEndpoint(endpoint.(policies := endpoint.policies + MappingPolicies(mappings)))
    ensures !asWritten ==> out.result.Returned?
    ensures |mappings| > 0 && out.result.Returned? && out.result.value.Success? ==> HasNat(out.result.value.value)
  {
    if |mappings| == 0 then Run(Returned(Success(endpoint)), [])
    else
      var request := endpoint.(policies := endpoint.policies + MappingPolicies(mappings));
      var updated := h.updateEndpoint(request);
      if updated.Failure? then Run(Returned(Failure(updated.error)), [UpdateEndpoint(request)])
      else
        var polled := PollNat(updated.value.id, h, 0, asWritten);
        Run(polled.result, [UpdateEndpoint(request)] + polled.calls)
  }

  /** `ApplyMappings` as written: a failed reload of the endpoint panics. */
  function ApplyMappingsAsWritten(endpoint: Hns.Endpoint, mappings: seq<NetRules.PortMapping>, h: Answers)
    : (out: Run<Completion<Result<Hns.Endpoint, Error>>>)
    ensures out.result == Panicked ==> |mappings| > 0 && h.updateEndpoint(endpoint.(policies := endpoint.policies + MappingPolicies(mappings))).Success?
    ensures |mappings| == 0 ==> out == Run(Returned(Success(endpoint)), [])
  {
    ApplyMappingsWith(endpoint, mappings, h, true)
  }

  /** `ApplyMappings` with a failed reload returned as an error, as `attachEndpoint` does for the
   *  same lookup. */
  function ApplyMappings(endpoint: Hns.Endpoint, mappings: seq<NetRules.PortMapping>, h: Answers)
    : (out: Run<Result<Hns.Endpoint, Error>>)
    ensures |mappings| == 0 ==> out == Run(Success(endpoint), [])
    ensures |mappings| > 0 ==>
              1 <= |out.calls| <= 11
              && out.calls[0] == UpdateEndpoint(endpoint.(policies := endpoint.policies + MappingPolicies(mappings)))
              && forall c :: c in out.calls[1..] ==> c.GetEndpointById?
    ensures |mappings| > 0 && out.result.Success? ==> HasNat(out.result.value)
  {
    var r := ApplyMappingsWith(endpoint, mappings, h, false);
    var request := endpoint.(policies := endpoint.policies + MappingPolicies(mappings));
    if |mappings| > 0 && h.updateEndpoint(request).Success? then
      assert r.calls[1..] == PollNat(h.updateEndpoint(request).value.id, h, 0, false).calls;
      Run(r.result.value, r.calls)
    else Run(r.result.value, r.calls)
  }

  /** The two readings differ only where a reload fails: then the code as written panics. */
  lemma ApplyMappingsAsWrittenPanics(endpoint: Hns.Endpoint, m: NetRules.PortMapping, h: Answers)
    requires h.updateEndpoint(endpoint.(policies := endpoint.policies + MappingPolicies([m]))).Success?
    requires h.endpointById(h.updateEndpoint(endpoint.(policies := endpoint.policies + MappingPolicies([m]))).value.id, 0).Failure?
    ensures ApplyMappingsAsWritten(endpoint, [m], h).result == Panicked
    ensures ApplyMappings(endpoint, [m], h).result.Failure?
  {
  }

  /** When every reload succeeds the two readings agree. */
  lemma {:induction false} PollNatReadingsAgree(id: string, h: Answers, i: nat)
    requires i <= 10
    requires forall j :: i <= j < 10 ==> h.endpointById(id, j).Success?
    ensures PollNat(id, h, i, true) == PollNat(id, h, i, false)
    decreases 10 - i
  {
    if i < 10 {
      var found := h.endpointById(id, i);
      assert found.Success?;
      if !HasNat(found.value) {
        PollNatReadingsAgree(id, h, i + 1);
        var rest := PollNat(id, h, i + 1, false);
        assert PollNat(id, h, i, true) == Run(rest.result, [GetEndpointById(id)] + rest.calls);
        assert PollNat(id, h, i, false) == Run(rest.result, [GetEndpointById(id)] + rest.calls);
      }
    }
  }

  // ---------------------------------------------------------------------------------------
  // Deleting
  // ---------------------------------------------------------------------------------------

  /** A detach of a container that no longer exists is not an error. */
  function IgnoreMissingContainer(detached: Outcome<Error>): (r: Outcome<Error>)
    ensures r.Fail? <==> detached.Fail? && detached.error != ComputeSystemDoesNotExist
    ensures r.Fail? ==> r == detached
  {
    if detached == Fail(ComputeSystemDoesNotExist) then Pass else detached
  }

  /** `EndpointManager.Delete`: a missing endpoint is already deleted; otherwise detach and delete
   *  are both attempted, and both failing reads "a, b". */
  function Delete(m: Manager, h: Answers): (out: Run<Outcome<Error>>)
    ensures |out.calls| >= 1 && out.calls[0] == GetEndpointByName(m.containerId)
    ensures h.endpointByName(m.containerId).Failure? ==>
              out.calls == [GetEndpointByName(m.containerId)]
              && out.result == if h.endpointByName(m.containerId).error.EndpointNotFound? then Pass
                               else Fail(h.endpointByName(m.containerId).error)
    ensures h.endpointByName(m.containerId).Success? ==>
              var e := h.endpointByName(m.containerId).value;
              var detached := h.hotDetach(m.containerId, e.id);
              out.calls == [GetEndpointByName(m.containerId), HotDetach(m.containerId, e.id), DeleteEndpoint(e.id)]
              && (out.result.Pass? <==> (detached.Pass? || detached.error == ComputeSystemDoesNotExist) && h.deleteEndpoint(e).Pass?)
              && out.result == CombinePair(IgnoreMissingContainer(detached), h.deleteEndpoint(e))
  {
    var found := h.endpointByName(m.containerId);
    if found.Failure? then
      Run(if found.error.EndpointNotFound? then Pass else Fail(found.error), [GetEndpointByName(m.containerId)])
    else
      var e := found.value;
      var detached := IgnoreMissingContainer(h.hotDetach(m.containerId, e.id));
      Run(CombinePair(detached, h.deleteEndpoint(e)),
          [GetEndpointByName(m.containerId), HotDetach(m.containerId, e.id), DeleteEndpoint(e.id)])
  }

  // ---------------------------------------------------------------------------------------
  // The two build variants of the ACL and post-attach steps
  // ---------------------------------------------------------------------------------------

  /** `processAcls`, firewall build: the endpoint carries no ACLs. */
  function ProcessAclsFirewall(acls: seq<Hns.AclPolicy>): (r: seq<Hns.AclPolicy>)
    ensures r == []
  {
    []
  }

  /** `processAcls`, ACL build: with no rules everything is blocked, outbound first. */
  function ProcessAclsAcl(acls: seq<Hns.AclPolicy>): (r: seq<Hns.AclPolicy>)
    ensures |acls| > 0 ==> r == acls
    ensures |acls| == 0 ==>
              |r| == 2 && r[0].direction == Hns.Out && r[1].direction == Hns.In
              && forall i :: 0 <= i < 2 ==> r[i].action == Hns.Block
                                            && r[i].protocol == Words.Uint16(Firewall.NET_FW_IP_PROTOCOL_ANY) == 256
  {
    if |acls| == 0 then
      [Hns.AclPolicy(Hns.Block, Hns.Out, Words.Uint16(Firewall.NET_FW_IP_PROTOCOL_ANY), "", "", ""),
       Hns.AclPolicy(Hns.Block, Hns.In, Words.Uint16(Firewall.NET_FW_IP_PROTOCOL_ANY), "", "", "")]
    else acls
  }

  /** `processEndpointPostAttach`, ACL build: nothing to do. */
  function PostAttachAcl(e: Hns.Endpoint, h: Answers): (out: Run<Outcome<Error>>)
    ensures out == Run(Pass, [])
  {
    Run(Pass, [])
  }

  /** `deleteFirewallRule`, firewall build, from round `i`: ask whether the rule exists yet, up to
   *  three times; delete it once it does. */
  function AwaitAndDeleteRule(ruleName: string, h: Answers, i: nat): (out: Run<Outcome<Error>>)
    requires i <= 3
    ensures |out.calls| <= 3 - i + 1
    ensures forall k :: 0 <= k < |out.calls| - 1 ==> out.calls[k] == RuleExists(ruleName)
    ensures var asked := if DeleteRule(ruleName) in out.calls then |out.calls| - 1 else |out.calls|;
            forall j :: i <= j < i + asked - 1 ==> h.ruleExists(ruleName, j) == Success(false)
    ensures forall c :: c in out.calls ==> c == RuleExists(ruleName) || c == DeleteRule(ruleName)
    ensures DeleteRule(ruleName) in out.calls ==>
              |out.calls| >= 2 && out.calls[|out.calls| - 1] == DeleteRule(ruleName)
              && h.ruleExists(ruleName, i + |out.calls| - 2) == Success(true)
              && out.result == h.deleteRule(ruleName)
    ensures DeleteRule(ruleName) !in out.calls && out.result.Fail? ==>
              (|out.calls| == 3 - i && out.result == Fail(Msg("firewall rule " + ruleName + " not generated in time")))
              || (|out.calls| > 0 && h.ruleExists(ruleName, i + |out.calls| - 1).Failure?
                  && out.result == Fail(h.ruleExists(ruleName, i + |out.calls| - 1).error))
    ensures DeleteRule(ruleName) !in out.calls ==> out.result.Fail?
    decreases 3 - i
  {
    if i == 3 then Run(Fail(Msg("firewall rule " + ruleName + " not generated in time")), [])
    else
      var exists_ := h.ruleExists(ruleName, i);
      if exists_.Failure? then Run(Fail(exists_.error), [RuleExists(ruleName)])
      else if exists_.value then Run(h.deleteRule(ruleName), [RuleExists(ruleName), DeleteRule(ruleName)])
      else
        var rest := AwaitAndDeleteRule(ruleName, h, i + 1);
        Run(rest.result, [RuleExists(ruleName)] + rest.calls)
  }

  /** `processEndpointPostAttach`, firewall build: the compartment's generated rule is awaited and
   *  deleted; an endpoint without a compartment and GUID is rejected first. */
  function PostAttachFirewall(e: Hns.Endpoint, h: Answers): (out: Run<Outcome<Error>>)
    ensures var (c, g) := EndpointPortOf(e.allocators);
            (c == 0 || g == "" ==> out == Run(Fail(InvalidEndpoint(e.id, e.allocators)), []))
            && (c != 0 && g != "" ==> out == AwaitAndDeleteRule(RuleName(c, g), h, 0))
    ensures |out.calls| <= 4
  {
    var (c, g) := EndpointPortOf(e.allocators);
    if c == 0 || g == "" then Run(Fail(InvalidEndpoint(e.id, e.allocators)), [])
    else AwaitAndDeleteRule(RuleName(c, g), h, 0)
  }

  /** The firewall-build rule delete asks at most three times and deletes at most once, and only
   *  after an answer that the rule exists. */
  lemma AwaitAndDeleteRuleBounds(ruleName: string, h: Answers)
    ensures var out := AwaitAndDeleteRule(ruleName, h, 0);
            |out.calls| <= 4
            && (forall k :: 0 <= k < |out.calls| && out.calls[k] == DeleteRule(ruleName) ==> k == |out.calls| - 1)
            && ((forall k :: 0 <= k < 3 ==> h.ruleExists(ruleName, k) == Success(false)) ==>
                  out == Run(Fail(Msg("firewall rule " + ruleName + " not generated in time")),
                             [RuleExists(ruleName), RuleExists(ruleName), RuleExists(ruleName)]))
  {
  }
}
