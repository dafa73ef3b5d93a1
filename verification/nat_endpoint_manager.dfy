/** The NAT-network endpoint manager: it finds or creates the shared NAT network, allocates host
 *  ports for the application and SSH ports, creates the container's endpoint, and deletes
 *  endpoints again, releasing the container's ports only when every delete went through. */
module NatEndpointManager {
  import opened Wrappers
  import opened Errors
  import opened Text
  import opened Host
  import Hns
  import Words
  import NetworkEndpoint

  datatype Manager = Manager(containerId: string, networkName: string)

  const SUBNET_RANGE: string := "172.30.0.0/22"
  const GATEWAY_ADDRESS: string := "172.30.0.1"
  const APP_PORT: nat := 8080
  const SSH_PORT: nat := 2222

  /** The NAT network created when none is found. */
  function NatNetwork(name: string): (n: Hns.Network)
    ensures n.name == name && n.kind == "nat" && n.subnets == [Hns.Subnet(SUBNET_RANGE, GATEWAY_ADDRESS)]
  {
    Hns.Network("", name, "nat", [Hns.Subnet(SUBNET_RANGE, GATEWAY_ADDRESS)], "")
  }

  predicate NetworkMissing(name: string, e: Error) { Contains(Message(e), "Network " + name + " not found") }

  predicate ObjectExists(e: Error) { Contains(Message(e), "HNS failed with error : {Object Exists}") }

  /** `getWincNATNetwork` from round `i` on: look the network up, and when it is missing create
   *  it, tolerating a create that reports it already exists; ten rounds at most. */
  function FindNatNetwork(m: Manager, h: Answers, i: nat): (out: Run<Result<Hns.Network, Error>>)
    requires i <= 10
    ensures |out.calls| <= 2 * (10 - i)
    ensures forall c :: c in out.calls ==> c == GetNetworkByName(m.networkName) || c == CreateNetwork(NatNetwork(m.networkName))
    ensures out.result.Success? ==>
              exists j :: i <= j < 10 && (h.networkByName(m.networkName, j) == Success(out.result.value)
                                          || h.createNetwork(NatNetwork(m.networkName), j) == Success(out.result.value))
    ensures out.result == Failure(NoNatNetwork(m.networkName)) ==>
              |out.calls| == 2 * (10 - i)
              || exists j :: i <= j < 10 && (h.networkByName(m.networkName, j) == out.result
                                             || h.createNetwork(NatNetwork(m.networkName), j) == out.result)
    decreases 10 - i
  {
    if i == 10 then Run(Failure(NoNatNetwork(m.networkName)), [])
    else
      var found := h.networkByName(m.networkName, i);
      if found.Success? then Run(Success(found.value), [GetNetworkByName(m.networkName)])
      else if !NetworkMissing(m.networkName, found.error) then Run(Failure(found.error), [GetNetworkByName(m.networkName)])
      else
        var created := h.createNetwork(NatNetwork(m.networkName), i);
        var calls := [GetNetworkByName(m.networkName), CreateNetwork(NatNetwork(m.networkName))];
        if created.Success? then Run(Success(created.value), calls)
        else if !ObjectExists(created.error) then Run(Failure(created.error), calls)
        else
          var rest := FindNatNetwork(m, h, i + 1);
          Run(rest.result, calls + rest.calls)
  }

  /** A network that never shows up, while every create reports that it exists, gives
   *  `NoNATNetworkError` after exactly ten rounds. */
  lemma {:induction false} NoNatNetworkAfterTenRounds(m: Manager, h: Answers, i: nat)
    requires i <= 10
    requires forall j :: i <= j < 10 ==> h.networkByName(m.networkName, j).Failure?
                                         && NetworkMissing(m.networkName, h.networkByName(m.networkName, j).error)
    requires forall j :: i <= j < 10 ==> h.createNetwork(NatNetwork(m.networkName), j).Failure?
                                         && ObjectExists(h.createNetwork(NatNetwork(m.networkName), j).error)
    ensures FindNatNetwork(m, h, i).result == Failure(NoNatNetwork(m.networkName))
    ensures |FindNatNetwork(m, h, i).calls| == 2 * (10 - i)
    decreases 10 - i
  {
    if i < 10 {
      NoNatNetworkAfterTenRounds(m, h, i + 1);
    }
  }

  /** A lookup that fails for any reason other than a missing network ends the search with an
   *  error, provided no earlier round found or created the network. */
  lemma {:induction false} LookupErrorEndsSearch(m: Manager, h: Answers, i: nat, j: nat)
    requires i <= j < 10
    requires h.networkByName(m.networkName, j).Failure? && !NetworkMissing(m.networkName, h.networkByName(m.networkName, j).error)
    requires forall k :: i <= k < j ==> h.networkByName(m.networkName, k).Failure? && h.createNetwork(NatNetwork(m.networkName), k).Failure?
    ensures FindNatNetwork(m, h, i).result.Failure?
    decreases j - i
  {
    var found := h.networkByName(m.networkName, i);
    var created := h.createNetwork(NatNetwork(m.networkName), i);
    if i == j {
      assert FindNatNetwork(m, h, i).result == Failure(found.error);
    } else {
      assert found.Failure? && created.Failure?;
      if NetworkMissing(m.networkName, found.error) && ObjectExists(created.error) {
        LookupErrorEndsSearch(m, h, i + 1, j);
        assert FindNatNetwork(m, h, i).result == FindNatNetwork(m, h, i + 1).result;
      }
    }
  }

  /** `portMapping`: a host port for the container port, as a TCP NAT policy. */
  function PortMapping(m: Manager, containerPort: nat, round: nat, h: Answers): (r: Result<Hns.Policy, Error>)
    ensures h.allocatePort(m.containerId, 0, round).Failure? ==> r == Failure(h.allocatePort(m.containerId, 0, round).error)
    ensures r.Success? ==>
              r.value == Hns.NatPolicy("TCP", Words.Uint16(containerPort), Words.Uint16(h.allocatePort(m.containerId, 0, round).value))
  {
    var granted := h.allocatePort(m.containerId, 0, round);
    if granted.Failure? then Failure(granted.error)
    else Success(Hns.NatPolicy("TCP", Words.Uint16(containerPort), Words.Uint16(granted.value)))
  }

  /** After the network is found: two host ports, then the endpoint; any failure releases the
   *  container's ports (the release's own error is only logged). */
  function AttachOnNetwork(m: Manager, network: Hns.Network, h: Answers): (out: Run<Result<seq<string>, Error>>)
    ensures out.result.Failure? <==> |out.calls| > 0 && out.calls[|out.calls| - 1] == ReleaseAllPorts(m.containerId)
    ensures out.result.Success? ==>
              var app := PortMapping(m, APP_PORT, 0, h);
              var ssh := PortMapping(m, SSH_PORT, 1, h);
              app.Success? && ssh.Success?
              && var request := Hns.NewEndpoint(m.containerId, network.id, [app.value, ssh.value], []);
              |out.calls| >= 2 && out.calls[..2] == [AllocatePort(m.containerId, 0), AllocatePort(m.containerId, 0)]
              && NetworkEndpoint.CreateEndpointRetry(request, h).result.Success?
              && out.result.value == [NetworkEndpoint.CreateEndpointRetry(request, h).result.value.id]
  {
    var app := PortMapping(m, APP_PORT, 0, h);
    if app.Failure? then Run(Failure(app.error), [AllocatePort(m.containerId, 0), ReleaseAllPorts(m.containerId)])
    else
      var ssh := PortMapping(m, SSH_PORT, 1, h);
      var allocs := [AllocatePort(m.containerId, 0), AllocatePort(m.containerId, 0)];
      if ssh.Failure? then Run(Failure(ssh.error), allocs + [ReleaseAllPorts(m.containerId)])
      else
        var request := Hns.NewEndpoint(m.containerId, network.id, [app.value, ssh.value], []);
        var created := NetworkEndpoint.CreateEndpointRetry(request, h);
        if created.result.Failure? then Run(Failure(created.result.error), allocs + created.calls + [ReleaseAllPorts(m.containerId)])
        else Run(Success([created.result.value.id]), allocs + created.calls)
  }

  /** `AttachEndpointToConfig`: the endpoint list the container config gets. A failure to find the
   *  network returns before any port is allocated. */
  function AttachEndpointToConfig(m: Manager, h: Answers): (out: Run<Result<seq<string>, Error>>)
    ensures var found := FindNatNetwork(m, h, 0);
            (found.result.Failure? ==> out == Run(Failure(found.result.error), found.calls))
            && (found.result.Success? ==>
                  |found.calls| <= |out.calls| && out.calls[..|found.calls|] == found.calls
                  && out.result == AttachOnNetwork(m, found.result.value, h).result)
    ensures out.result.Success? ==> |out.result.value| == 1
  {
    var found := FindNatNetwork(m, h, 0);
    if found.result.Failure? then Run(Failure(found.result.error), found.calls)
    else
      var attached := AttachOnNetwork(m, found.result.value, h);
      Run(attached.result, found.calls + attached.calls)
  }

  /** The endpoint a successful attach creates carries exactly two NAT policies: the application
   *  port 8080 to the first host port granted and the SSH port 2222 to the second; the config
   *  gets that endpoint's id and nothing else. */
  lemma AttachedEndpointMapsAllocatedPorts(m: Manager, h: Answers)
    requires AttachEndpointToConfig(m, h).result.Success?
    ensures var found := FindNatNetwork(m, h, 0);
            var app := h.allocatePort(m.containerId, 0, 0);
            var ssh := h.allocatePort(m.containerId, 0, 1);
            found.result.Success? && app.Success? && ssh.Success?
            && var request := Hns.NewEndpoint(m.containerId, found.result.value.id,
                                              [Hns.NatPolicy("TCP", 8080, Words.Uint16(app.value)),
                                               Hns.NatPolicy("TCP", 2222, Words.Uint16(ssh.value))], []);
               CreateEndpoint(request) in AttachEndpointToConfig(m, h).calls
               && AttachEndpointToConfig(m, h).result.value == [NetworkEndpoint.CreateEndpointRetry(request, h).result.value.id]
  {
    var found := FindNatNetwork(m, h, 0);
    var attached := AttachOnNetwork(m, found.result.value, h);
    var created := NetworkEndpoint.CreateEndpointRetry(
      Hns.NewEndpoint(m.containerId, found.result.value.id,
                      [PortMapping(m, APP_PORT, 0, h).value, PortMapping(m, SSH_PORT, 1, h).value], []), h);
    assert attached.calls == [AllocatePort(m.containerId, 0), AllocatePort(m.containerId, 0)] + created.calls;
    assert created.calls[0] in attached.calls;
    assert AttachEndpointToConfig(m, h).calls == found.calls + attached.calls;
  }

  // ---------------------------------------------------------------------------------------
  // Deleting
  // ---------------------------------------------------------------------------------------

  /** The answer to the k-th lookup; an id listed twice is asked for twice. */
  function Lookup(ids: seq<string>, k: nat, h: Answers): Result<Hns.Endpoint, Error>
    requires k < |ids|
  {
    h.endpointById(ids[k], multiset(ids[..k])[ids[k]])
  }

  predicate DeleteFails(ids: seq<string>, k: nat, h: Answers)
    requires k < |ids|
  {
    Lookup(ids, k, h).Success? && h.deleteEndpoint(Lookup(ids, k, h).value).Fail?
  }

  /** The calls the delete loop makes from the k-th id on: each id is looked up, and deleted
   *  when the lookup succeeds; a failed lookup is skipped. */
  function DeleteCalls(ids: seq<string>, k: nat, h: Answers): (calls: seq<Call>)
    requires k <= |ids|
    ensures forall j :: k <= j < |ids| && Lookup(ids, j, h).Success? ==> DeleteEndpoint(Lookup(ids, j, h).value.id) in calls
    ensures forall c :: c in calls ==> c.GetEndpointById? || c.DeleteEndpoint?
    decreases |ids| - k
  {
    if k == |ids| then []
    else
      var found := Lookup(ids, k, h);
      [GetEndpointById(ids[k])] + (if found.Success? then [DeleteEndpoint(found.value.id)] else []) + DeleteCalls(ids, k + 1, h)
  }

  /** The first id from k on whose delete fails, or the length when none does. */
  function FirstFailedDelete(ids: seq<string>, k: nat, h: Answers): (i: nat)
    requires k <= |ids|
    ensures k <= i <= |ids|
    ensures i < |ids| ==> DeleteFails(ids, i, h)
    ensures forall j :: k <= j < i ==> !DeleteFails(ids, j, h)
    decreases |ids| - k
  {
    if k == |ids| || DeleteFails(ids, k, h) then k else FirstFailedDelete(ids, k + 1, h)
  }

  /** `DeleteEndpointsById`: every found endpoint is deleted; the first delete error is returned,
   *  and the container's ports are released only when no delete failed. */
  function DeleteEndpointsById(m: Manager, ids: seq<string>, h: Answers): (out: Run<Outcome<Error>>)
    ensures forall j :: 0 <= j < |ids| && Lookup(ids, j, h).Success? ==> DeleteEndpoint(Lookup(ids, j, h).value.id) in out.calls
    ensures ReleaseAllPorts(m.containerId) in out.calls <==> forall j :: 0 <= j < |ids| ==> !DeleteFails(ids, j, h)
    ensures ReleaseAllPorts(m.containerId) in out.calls ==> out.result == h.releaseAllPorts(m.containerId)
    ensures ReleaseAllPorts(m.containerId) !in out.calls ==>
              exists j :: 0 <= j < |ids| && DeleteFails(ids, j, h)
                          && out.result == h.deleteEndpoint(Lookup(ids, j, h).value)
                          && forall i :: 0 <= i < j ==> !DeleteFails(ids, i, h)
  {
    var calls := DeleteCalls(ids, 0, h);
    var i := FirstFailedDelete(ids, 0, h);
    assert ReleaseAllPorts(m.containerId) !in calls;
    if i < |ids| then Run(h.deleteEndpoint(Lookup(ids, i, h).value), calls)
    else Run(h.releaseAllPorts(m.containerId), calls + [ReleaseAllPorts(m.containerId)])
  }

  /** `DeleteContainerEndpoints`: the endpoints the container's statistics list are deleted; a
   *  statistics error is returned before anything else. */
  function DeleteContainerEndpoints(m: Manager, endpointIds: Result<seq<string>, Error>, h: Answers): (out: Run<Outcome<Error>>)
    ensures endpointIds.Failure? ==> out == Run(Fail(endpointIds.error), [])
    ensures endpointIds.Success? ==> out == DeleteEndpointsById(m, endpointIds.value, h)
  {
    if endpointIds.Failure? then Run(Fail(endpointIds.error), []) else DeleteEndpointsById(m, endpointIds.value, h)
  }

  /** Deleting by id passes exactly when every endpoint found is deleted without error and the
   *  ports are then released; the release, when made, is the last call. */
  lemma DeleteEndpointsByIdPassesIff(m: Manager, ids: seq<string>, h: Answers)
    ensures DeleteEndpointsById(m, ids, h).result.Pass? <==>
              (forall j :: 0 <= j < |ids| && Lookup(ids, j, h).Success? ==> h.deleteEndpoint(Lookup(ids, j, h).value).Pass?)
              && h.releaseAllPorts(m.containerId).Pass?
    ensures var calls := DeleteEndpointsById(m, ids, h).calls;
            ReleaseAllPorts(m.containerId) in calls ==> calls[|calls| - 1] == ReleaseAllPorts(m.containerId)
  {
    var out := DeleteEndpointsById(m, ids, h);
    var i := FirstFailedDelete(ids, 0, h);
    if i < |ids| {
      assert DeleteFails(ids, i, h);
      assert out.result == h.deleteEndpoint(Lookup(ids, i, h).value);
    } else {
      assert forall j :: 0 <= j < |ids| && Lookup(ids, j, h).Success? ==> h.deleteEndpoint(Lookup(ids, j, h).value).Pass? by {
        forall j | 0 <= j < |ids| && Lookup(ids, j, h).Success? ensures h.deleteEndpoint(Lookup(ids, j, h).value).Pass? {
          assert !DeleteFails(ids, j, h);
        }
      }
    }
  }
}
