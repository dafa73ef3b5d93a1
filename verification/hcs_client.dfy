/** The thin client over the Host Compute Service: the one-container property query, the
 *  network and endpoint calls that wait for their adapter to appear, and the layer calls that
 *  run the storage steps in order. */
module HcsClient {
  import opened Wrappers
  import opened Errors
  import opened Text
  import Hns
  import Host

  /** `hcsshim.ComputeSystemQuery`, with the two fields the client sets. */
  datatype Query = Query(ids: seq<string>, owners: seq<string>)

  /** The parts of `hcsshim.ContainerProperties` the callers read. */
  datatype ContainerProperties = ContainerProperties(id: string, owner: string, stopped: bool)

  const OWNER: string := "winc"

  /** `GetContainerProperties`: the query names the one id and the "winc" owner; no answer is
   *  `NotFoundError`, more than one is `DuplicateError`. */
  function GetContainerProperties(id: string, getContainers: Query -> Result<seq<ContainerProperties>, Error>)
    : (r: Result<ContainerProperties, Error>)
    ensures var listed := getContainers(Query([id], [OWNER]));
            (listed.Failure? ==> r == Failure(listed.error))
            && (listed.Success? && |listed.value| == 0 ==> r == Failure(ContainerNotFound(id)))
            && (listed.Success? && |listed.value| > 1 ==> r == Failure(DuplicateContainer(id)))
            && (r.Success? <==> listed.Success? && |listed.value| == 1)
            && (r.Success? ==> r.value == listed.value[0])
  {
    var listed := getContainers(Query([id], [OWNER]));
    if listed.Failure? then Failure(listed.error)
    else if |listed.value| == 0 then Failure(ContainerNotFound(id))
    else if |listed.value| > 1 then Failure(DuplicateContainer(id))
    else Success(listed.value[0])
  }

  /** The cardinality check, read from the caller's side: a success is the only container the
   *  query matched, and each error names the id asked about. */
  lemma GetContainerPropertiesCardinality(id: string, getContainers: Query -> Result<seq<ContainerProperties>, Error>)
    ensures var r := GetContainerProperties(id, getContainers);
            var listed := getContainers(Query([id], [OWNER]));
            (r.Success? ==> listed == Success([r.value]))
            && (r == Failure(ContainerNotFound(id)) ==> listed == Success([]) || listed == Failure(ContainerNotFound(id)))
            && (r == Failure(DuplicateContainer(id)) ==>
                  (listed.Success? && |listed.value| >= 2) || listed == Failure(DuplicateContainer(id)))
  {
    var r := GetContainerProperties(id, getContainers);
    var listed := getContainers(Query([id], [OWNER]));
    if r.Success? {
      assert listed.value == [listed.value[0]];
    }
  }

  // ---------------------------------------------------------------------------------------
  // Waiting for an adapter
  // ---------------------------------------------------------------------------------------

  const CHECKS: nat := 10

  /** The first check of `alias` from `from` on that errs or finds the adapter, or `CHECKS` if
   *  none does. */
  function FirstSettledCheck(interfaceExists: (string, nat) -> Result<bool, Error>, alias: string, from: nat): (k: nat)
    requires from <= CHECKS
    ensures from <= k <= CHECKS
    ensures forall i :: from <= i < k ==> interfaceExists(alias, i) == Success(false)
    ensures k < CHECKS ==> interfaceExists(alias, k) != Success(false)
    decreases CHECKS - from
  {
    if from == CHECKS || interfaceExists(alias, from) != Success(false) then from
    else FirstSettledCheck(interfaceExists, alias, from + 1)
  }

  /** The interface-existence loop: at most ten checks of `alias`, the first error or sighting
   *  ends it, and an adapter never seen is reported with `missing`. Also answers how many checks
   *  were made. */
  function AwaitInterface(interfaceExists: (string, nat) -> Result<bool, Error>, alias: string, missing: Error)
    : (r: (Outcome<Error>, nat))
    ensures 1 <= r.1 <= CHECKS
    ensures forall i :: 0 <= i < r.1 - 1 ==> interfaceExists(alias, i) == Success(false)
    ensures r.0.Pass? <==> interfaceExists(alias, r.1 - 1) == Success(true)
    ensures interfaceExists(alias, r.1 - 1).Failure? ==> r.0 == Fail(interfaceExists(alias, r.1 - 1).error)
    ensures interfaceExists(alias, r.1 - 1) == Success(false) ==> r.0 == Fail(missing) && r.1 == CHECKS
  {
    var k := FirstSettledCheck(interfaceExists, alias, 0);
    if k == CHECKS then (Fail(missing), CHECKS)
    else if interfaceExists(alias, k).Failure? then (Fail(interfaceExists(alias, k).error), k + 1)
    else
      assert interfaceExists(alias, k).value;
      (Pass, k + 1)
  }

  /** An adapter is up when some check within the ten finds it and every earlier check answered
   *  "not yet". */
  predicate SeenInTime(interfaceExists: (string, nat) -> Result<bool, Error>, alias: string)
  {
    exists k :: 0 <= k < CHECKS && interfaceExists(alias, k) == Success(true)
                && forall i :: 0 <= i < k ==> interfaceExists(alias, i) == Success(false)
  }

  /** Every one of the ten checks answered "not yet". */
  predicate NeverSeen(interfaceExists: (string, nat) -> Result<bool, Error>, alias: string)
  {
    forall i :: 0 <= i < CHECKS ==> interfaceExists(alias, i) == Success(false)
  }

  lemma AwaitInterfacePassesIff(interfaceExists: (string, nat) -> Result<bool, Error>, alias: string, missing: Error)
    ensures AwaitInterface(interfaceExists, alias, missing).0.Pass? <==> SeenInTime(interfaceExists, alias)
    ensures NeverSeen(interfaceExists, alias) ==> AwaitInterface(interfaceExists, alias, missing).0 == Fail(missing)
  {
    var r := AwaitInterface(interfaceExists, alias, missing);
    if SeenInTime(interfaceExists, alias) {
      var k :| 0 <= k < CHECKS && interfaceExists(alias, k) == Success(true)
               && forall i :: 0 <= i < k ==> interfaceExists(alias, i) == Success(false);
      assert r.1 - 1 == k;
    }
    if NeverSeen(interfaceExists, alias) {
      assert interfaceExists(alias, r.1 - 1) == Success(false);
    }
  }

  function NotCreatedInTime(alias: string): Error
  {
    Msg("interface " + alias + " not created in time")
  }

  function ContainerNotCreatedInTime(alias: string): Error
  {
    Msg("container interface " + alias + " not created in time")
  }

  /** `CreateNetwork`: the HNS create, then up to ten checks for "vEthernet (<name>)". */
  function CreateNetwork(created: Result<Hns.Network, Error>, interfaceExists: (string, nat) -> Result<bool, Error>)
    : (r: Result<Hns.Network, Error>)
    ensures created.Failure? ==> r == created
    ensures r.Success? ==> r == created
    ensures created.Success? ==>
              var alias := Host.VEthernet(created.value.name);
              (r.Success? <==> SeenInTime(interfaceExists, alias))
              && (NeverSeen(interfaceExists, alias) ==> r == Failure(NotCreatedInTime(alias)))
  {
    if created.Failure? then created
    else
      var alias := Host.VEthernet(created.value.name);
      var waited := AwaitInterface(interfaceExists, alias, NotCreatedInTime(alias));
      AwaitInterfacePassesIff(interfaceExists, alias, NotCreatedInTime(alias));
      if waited.0.Fail? then Failure(waited.0.error) else created
  }

  /** `HotAttachEndpoint`: the attach, then up to ten checks for "vEthernet (<container id>)". */
  function HotAttachEndpoint(containerId: string, attached: Outcome<Error>, interfaceExists: (string, nat) -> Result<bool, Error>)
    : (r: Outcome<Error>)
    ensures attached.Fail? ==> r == attached
    ensures var alias := Host.VEthernet(containerId);
            attached.Pass? ==>
              (r.Pass? <==> SeenInTime(interfaceExists, alias))
              && (NeverSeen(interfaceExists, alias) ==> r == Fail(ContainerNotCreatedInTime(alias)))
  {
    if attached.Fail? then attached
    else
      var alias := Host.VEthernet(containerId);
      AwaitInterfacePassesIff(interfaceExists, alias, ContainerNotCreatedInTime(alias));
      AwaitInterface(interfaceExists, alias, ContainerNotCreatedInTime(alias)).0
  }

  // ---------------------------------------------------------------------------------------
  // Layers
  // ---------------------------------------------------------------------------------------

  /** What the storage calls answer. The removal steps are asked once per round. */
  datatype LayerCalls = LayerCalls(
    lock: Outcome<Error>,
    createSandbox: Outcome<Error>,
    activate: Outcome<Error>,
    prepare: Outcome<Error>,
    unprepare: nat -> Outcome<Error>,
    deactivate: nat -> Outcome<Error>,
    destroy: nat -> Outcome<Error>)

  datatype LayerStep = OpenLock | CreateSandbox | Activate | Prepare | Unprepare | Deactivate | Destroy

  /** `CreateLayer`: under the create lock, create, activate and prepare, stopping at the first
   *  failure. */
  function CreateLayer(c: LayerCalls): (r: (Outcome<Error>, seq<LayerStep>))
    ensures r.1 <= [OpenLock, CreateSandbox, Activate, Prepare] && |r.1| >= 1
    ensures r.0.Pass? <==> c.lock.Pass? && c.createSandbox.Pass? && c.activate.Pass? && c.prepare.Pass?
    ensures r.0.Pass? ==> |r.1| == 4
    ensures r.0.Fail? ==> r.0 == [c.lock, c.createSandbox, c.activate, c.prepare][|r.1| - 1]
                          && forall i :: 0 <= i < |r.1| - 1 ==> [c.lock, c.createSandbox, c.activate, c.prepare][i].Pass?
  {
    if c.lock.Fail? then (c.lock, [OpenLock])
    else if c.createSandbox.Fail? then (c.createSandbox, [OpenLock, CreateSandbox])
    else if c.activate.Fail? then (c.activate, [OpenLock, CreateSandbox, Activate])
    else (c.prepare, [OpenLock, CreateSandbox, Activate, Prepare])
  }

  const REMOVE_ROUNDS: nat := 3

  /** The first round from `from` on whose destroy succeeds, or `REMOVE_ROUNDS`. */
  function FirstDestroyed(c: LayerCalls, from: nat): (k: nat)
    requires from <= REMOVE_ROUNDS
    ensures from <= k <= REMOVE_ROUNDS
    ensures forall i :: from <= i < k ==> c.destroy(i).Fail?
    ensures k < REMOVE_ROUNDS ==> c.destroy(k).Pass?
    decreases REMOVE_ROUNDS - from
  {
    if from == REMOVE_ROUNDS || c.destroy(from).Pass? then from else FirstDestroyed(c, from + 1)
  }

  function RemoveSteps(rounds: nat): (s: seq<LayerStep>)
    ensures |s| == 3 * rounds
    ensures forall i :: 0 <= i < rounds ==> s[3 * i] == Unprepare && s[3 * i + 1] == Deactivate && s[3 * i + 2] == Destroy
  {
    if rounds == 0 then [] else RemoveSteps(rounds - 1) + [Unprepare, Deactivate, Destroy]
  }

  /** `err.Error()` where `err` may be nil: Go dereferences nil and panics. */
  function ErrorText(o: Outcome<Error>): Completion<string>
  {
    if o.Fail? then Returned(Message(o.error)) else Panicked
  }

  function RemoveFailure(unprepare: string, deactivate: string, destroy: string): Error
  {
    Msg("failed to remove layer (unprepare error: " + unprepare + ", deactivate error: " + deactivate
        + ", destroy error: " + destroy + ")")
  }

  /** `RemoveLayer` as written: up to three rounds of unprepare, deactivate, destroy; a destroy
   *  that succeeds ends it. The failure message takes the text of the last round's unprepare and
   *  deactivate errors, which are nil when those steps succeeded. */
  function RemoveLayerAsWritten(c: LayerCalls): (r: (Completion<Outcome<Error>>, seq<LayerStep>))
    ensures r.1 == RemoveSteps(FirstDestroyed(c, 0) + (if FirstDestroyed(c, 0) < REMOVE_ROUNDS then 1 else 0))
    ensures r.0 == Returned(Pass) <==> exists k :: 0 <= k < REMOVE_ROUNDS && c.destroy(k).Pass?
    ensures r.0.Panicked? <==>
              (forall k :: 0 <= k < REMOVE_ROUNDS ==> c.destroy(k).Fail?) && (c.unprepare(2).Pass? || c.deactivate(2).Pass?)
  {
    var k := FirstDestroyed(c, 0);
    if k < REMOVE_ROUNDS then (Returned(Pass), RemoveSteps(k + 1))
    else
      var u := ErrorText(c.unprepare(REMOVE_ROUNDS - 1));
      var d := ErrorText(c.deactivate(REMOVE_ROUNDS - 1));
      if u.Panicked? || d.Panicked? then (Panicked, RemoveSteps(REMOVE_ROUNDS))
      else (Returned(Fail(RemoveFailure(u.value, d.value, Message(c.destroy(REMOVE_ROUNDS - 1).error)))), RemoveSteps(REMOVE_ROUNDS))
  }

  /** Three failed destroys after a last unprepare that succeeded make the as-written removal panic. */
  lemma RemoveLayerAsWrittenPanics(e: Error)
    ensures var c := LayerCalls(Pass, Pass, Pass, Pass, _ => Pass, _ => Fail(e), _ => Fail(e));
            RemoveLayerAsWritten(c).0 == Panicked
  {
    var c := LayerCalls(Pass, Pass, Pass, Pass, _ => Pass, _ => Fail(e), _ => Fail(e));
    assert FirstDestroyed(c, 0) == REMOVE_ROUNDS;
  }

  /** One step's error as the corrected report prints it: a nil error is printed as `<nil>`. */
  function ErrorOrNil(o: Outcome<Error>): string
  {
    if o.Fail? then Message(o.error) else "<nil>"
  }

  /** `RemoveLayer` as intended: the same rounds, with a step that succeeded reported as "<nil>". */
  function RemoveLayer(c: LayerCalls): (r: (Outcome<Error>, seq<LayerStep>))
    ensures r.1 == RemoveLayerAsWritten(c).1
    ensures r.0.Pass? <==> exists k :: 0 <= k < REMOVE_ROUNDS && c.destroy(k).Pass?
    ensures r.0.Fail? ==>
              r.0.error == RemoveFailure(ErrorOrNil(c.unprepare(2)), ErrorOrNil(c.deactivate(2)), Message(c.destroy(2).error))
    ensures RemoveLayerAsWritten(c).0.Returned? ==> RemoveLayerAsWritten(c).0.value == r.0
  {
    var k := FirstDestroyed(c, 0);
    if k < REMOVE_ROUNDS then (Pass, RemoveSteps(k + 1))
    else
      (Fail(RemoveFailure(ErrorOrNil(c.unprepare(REMOVE_ROUNDS - 1)), ErrorOrNil(c.deactivate(REMOVE_ROUNDS - 1)),
                          Message(c.destroy(REMOVE_ROUNDS - 1).error))),
       RemoveSteps(REMOVE_ROUNDS))
  }
}
