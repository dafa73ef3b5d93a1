/** The native firewall helper: `CreateRule`, `DeleteRule` and `RuleExists` over the
 *  Windows Firewall rule collection (INetFwRules), whose rule names need not be unique. */
module FirewallDll {
  import opened Wrappers

  /** An HRESULT (a C `LONG`); failure codes are the negative ones. */
  type HResult = hr: int | -0x8000_0000 <= hr < 0x8000_0000

  const S_OK: HResult := 0
  /** HRESULT_FROM_WIN32(ERROR_FILE_NOT_FOUND) = 0x80070002 read as a `LONG`. */
  const FILE_NOT_FOUND: HResult := 0x8007_0002 - 0x1_0000_0000
  /** The `DWORD` that `return -1` produces. */
  const DWORD_MINUS_ONE: nat := 0xFFFF_FFFF

  const NET_FW_IP_PROTOCOL_TCP: int := 6
  const NET_FW_IP_PROTOCOL_UDP: int := 17

  predicate Failed(hr: HResult) { hr < 0 }

  /** A rule as held by the firewall. `None` means the setter was never called, so the
   *  store's default applies. */
  datatype StoredRule = StoredRule(
    name: string,
    action: int,
    direction: int,
    enabled: bool,
    protocol: Option<int>,
    localAddresses: Option<string>,
    localPorts: Option<string>,
    remoteAddresses: Option<string>,
    remotePorts: Option<string>)

  /** What the COM objects answer during one exported call. `itemFault(k)` / `removeFault(k)`
   *  is the code of the k-th `Item` / `Remove` call: a failing code makes that call fail,
   *  any other code lets it act on the collection truthfully. */
  datatype Com = Com(
    policyHr: HResult,
    rulesHr: HResult,
    newRuleHr: HResult,
    addHr: HResult,
    itemFault: nat -> HResult,
    removeFault: nat -> HResult)

  /** The rule collection can be opened: neither `initializeFirewallPolicy` nor `get_Rules` failed. */
  predicate Opens(com: Com) { !Failed(com.policyHr) && !Failed(com.rulesHr) }

  /** The rule collection, grouped by name: `Item(name)` finds any rule of that name and
   *  `Remove(name)` deletes one of them. Within a name the order carries no meaning. */
  type Store = map<string, seq<StoredRule>>

  function Named(store: Store, name: string): seq<StoredRule>
  {
    if name in store then store[name] else []
  }

  /** How many rules carry `name`. */
  function Count(store: Store, name: string): nat
  {
    |Named(store, name)|
  }

  /** Every rule whose name differs from `name`. */
  function Others(store: Store, name: string): (r: Store)
    ensures Count(r, name) == 0
    ensures forall n :: n != name ==> Named(r, n) == Named(store, n)
  {
    store - {name}
  }

  /** `INetFwRules::Add`: one more rule under its name, nothing else changes. */
  function Append(store: Store, r: StoredRule): (s: Store)
    ensures Count(s, r.name) == Count(store, r.name) + 1
    ensures Others(s, r.name) == Others(store, r.name)
    ensures forall n :: n != r.name ==> Count(s, n) == Count(store, n)
  {
    store[r.name := Named(store, r.name) + [r]]
  }

  /** `INetFwRules::Remove(name)` on success: one rule of that name goes, the rest stay. */
  function RemoveOne(store: Store, name: string): (r: Store)
    ensures Count(store, name) > 0 ==> Count(r, name) == Count(store, name) - 1
    ensures Count(store, name) == 0 ==> Count(r, name) == 0
    ensures Others(r, name) == Others(store, name)
  {
    if Count(store, name) <= 1 then store - {name} else store[name := store[name][1..]]
  }

  /** `portAllowed`: port filters are attached only to TCP and UDP rules. */
  function PortAllowed(protocol: int): (b: bool)
    ensures b <==> protocol == 6 || protocol == 17
  {
    protocol == NET_FW_IP_PROTOCOL_TCP || protocol == NET_FW_IP_PROTOCOL_UDP
  }

  /** The rule `CreateRule` fills in field by field; `None` strings are NULL pointers. */
  function BuildRule(name: string, action: int, direction: int, protocol: int,
                     localAddresses: Option<string>, localPorts: Option<string>,
                     remoteAddresses: Option<string>, remotePorts: Option<string>): (r: StoredRule)
    ensures r.name == name && r.action == action && r.direction == direction && r.enabled
    ensures r.protocol == (if protocol == 0 then None else Some(protocol))
    ensures r.localAddresses == localAddresses && r.remoteAddresses == remoteAddresses
    ensures r.localPorts.Some? <==> localPorts.Some? && (protocol == 6 || protocol == 17)
    ensures r.remotePorts.Some? <==> remotePorts.Some? && (protocol == 6 || protocol == 17)
    ensures r.localPorts.Some? ==> r.localPorts == localPorts
    ensures r.remotePorts.Some? ==> r.remotePorts == remotePorts
  {
    StoredRule(
      name, action, direction, true,
      if protocol != 0 then Some(protocol) else None,
      localAddresses,
      if localPorts.Some? && PortAllowed(protocol) then localPorts else None,
      remoteAddresses,
      if remotePorts.Some? && PortAllowed(protocol) then remotePorts else None)
  }

  /** `CreateRule`: returns the HRESULT and the collection afterwards. */
  function CreateRule(com: Com, rules: Store, name: Option<string>, action: int, direction: int,
                      protocol: int, localAddresses: Option<string>, localPorts: Option<string>,
                      remoteAddresses: Option<string>, remotePorts: Option<string>): (r: (HResult, Store))
    ensures r.0 == S_OK <==> Opens(com) && !Failed(com.newRuleHr) && name.Some? && !Failed(com.addHr)
    ensures r.0 == S_OK ==> r.1 == Append(rules, BuildRule(name.value, action, direction, protocol,
                                                            localAddresses, localPorts, remoteAddresses, remotePorts))
    ensures r.0 != S_OK ==> r.1 == rules
    ensures Failed(com.policyHr) ==> r.0 == com.policyHr
    ensures !Failed(com.policyHr) && Failed(com.rulesHr) ==> r.0 == com.rulesHr
    ensures Opens(com) && Failed(com.newRuleHr) ==> r.0 == com.newRuleHr
    ensures Opens(com) && !Failed(com.newRuleHr) && name.None? ==> r.0 == 1
    ensures Opens(com) && !Failed(com.newRuleHr) && name.Some? && Failed(com.addHr) ==> r.0 == com.addHr
  {
    if Failed(com.policyHr) then (com.policyHr, rules)
    else if Failed(com.rulesHr) then (com.rulesHr, rules)
    else if Failed(com.newRuleHr) then (com.newRuleHr, rules)
    else if name.None? then (1, rules)
    else
      var rule := BuildRule(name.value, action, direction, protocol,
                            localAddresses, localPorts, remoteAddresses, remotePorts);
      if Failed(com.addHr) then (com.addHr, rules) else (S_OK, Append(rules, rule))
  }

  /** The code of the k-th `Item(name)` call. */
  function ItemHr(com: Com, rules: Store, name: string, k: nat): HResult
  {
    if Failed(com.itemFault(k)) then com.itemFault(k)
    else if Count(rules, name) > 0 then S_OK
    else FILE_NOT_FOUND
  }

  /** `checkRule`: the three-way reading of an `Item` result as a `DWORD`. */
  function CheckRule(hr: HResult): (d: nat)
    ensures d == 0 <==> hr == FILE_NOT_FOUND
    ensures d == 1 <==> !Failed(hr)
    ensures d == DWORD_MINUS_ONE <==> Failed(hr) && hr != FILE_NOT_FOUND
  {
    if Failed(hr) then (if hr == FILE_NOT_FOUND then 0 else DWORD_MINUS_ONE) else 1
  }

  /** `RuleExists`: -1 when the collection cannot be opened, else `checkRule` of one lookup. */
  function RuleExists(com: Com, rules: Store, name: string): (d: nat)
    ensures !Opens(com) ==> d == DWORD_MINUS_ONE
    ensures Opens(com) && !Failed(com.itemFault(0)) ==> (d == 1 <==> Count(rules, name) > 0)
    ensures Opens(com) && !Failed(com.itemFault(0)) ==> (d == 0 <==> Count(rules, name) == 0)
    ensures d == 0 || d == 1 || d == DWORD_MINUS_ONE
  {
    if !Opens(com) then DWORD_MINUS_ONE else CheckRule(ItemHr(com, rules, name, 0))
  }

  /** One run of the remove-until-gone loop. `Stopped` carries the final lookup value (`exists`), `ret`, the
   *  collection and the number of loop iterations (= `Remove` calls); `OutOfFuel` means the
   *  loop had not stopped after `fuel` lookups. */
  datatype Loop = Stopped(lookup: nat, ret: HResult, rules: Store, iterations: nat) | OutOfFuel

  /** The last failing code among `f(lo)`, ..., `f(hi - 1)`, or `dflt` if none failed. */
  function LastFailure(f: nat -> HResult, lo: nat, hi: nat, dflt: HResult): HResult
    decreases hi
  {
    if hi <= lo then dflt
    else if Failed(f(hi - 1)) then f(hi - 1)
    else LastFailure(f, lo, hi - 1, dflt)
  }

  /** Recording a failure at `lo` before the rest of the scan is the same as scanning from `lo`. */
  lemma {:induction false} LastFailureShift(f: nat -> HResult, lo: nat, hi: nat, dflt: HResult)
    ensures lo < hi ==> LastFailure(f, lo + 1, hi, if Failed(f(lo)) then f(lo) else dflt) == LastFailure(f, lo, hi, dflt)
    decreases hi
  {
    if lo < hi - 1 && !Failed(f(hi - 1)) {
      LastFailureShift(f, lo, hi - 1, dflt);
    }
  }

  /** LastFailure is what the name says: no later failure exists, and it is a failure or the default. */
  lemma {:induction false} LastFailureMeaning(f: nat -> HResult, lo: nat, hi: nat, dflt: HResult)
    ensures (forall j :: lo <= j < hi ==> !Failed(f(j))) ==> LastFailure(f, lo, hi, dflt) == dflt
    ensures (exists j :: lo <= j < hi && Failed(f(j))) ==>
              exists j :: lo <= j < hi && Failed(f(j)) && LastFailure(f, lo, hi, dflt) == f(j) &&
                          forall j' :: j < j' < hi ==> !Failed(f(j'))
    decreases hi
  {
    if hi > lo && !Failed(f(hi - 1)) {
      LastFailureMeaning(f, lo, hi - 1, dflt);
    }
  }

  /** The `while (exists = checkRule(...))` loop of `DeleteRule`, from iteration `i` on. The
   *  condition is a `DWORD`, so only a 0 ends it; a -1 (0xFFFFFFFF) keeps it going. */
  function DeleteLoop(com: Com, rules: Store, name: string, i: nat, ret: HResult, fuel: nat): (r: Loop)
    ensures r.Stopped? ==> r.lookup == 0 && r.iterations >= i
    ensures r.Stopped? ==> r.ret == LastFailure(com.removeFault, i, r.iterations, ret)
    ensures r.Stopped? ==> Others(r.rules, name) == Others(rules, name)
    ensures r.Stopped? && (forall k :: com.itemFault(k) != FILE_NOT_FOUND) ==> Count(r.rules, name) == 0
    decreases fuel
  {
    if fuel == 0 then OutOfFuel
    else
      var lookup := CheckRule(ItemHr(com, rules, name, i));
      if lookup == 0 then Stopped(lookup, ret, rules, i)
      else
        var hr := com.removeFault(i);
        var next := if Failed(hr) then rules else RemoveOne(rules, name);
        var r := DeleteLoop(com, next, name, i + 1, if Failed(hr) then hr else ret, fuel - 1);
        LastFailureShift(com.removeFault, i, if r.Stopped? then r.iterations else i, ret);
        r
  }

  /** `DeleteRule` exactly as written: the `exists == -1` test after the loop. `None` means the
   *  call had not returned within `fuel` lookups. */
  function DeleteRule(com: Com, rules: Store, name: string, fuel: nat): (r: Option<(HResult, Store)>)
    ensures !Failed(com.policyHr) && Failed(com.rulesHr) ==> r == Some((com.rulesHr, rules))
    ensures Failed(com.policyHr) ==> r == Some((com.policyHr, rules))
    ensures Opens(com) && r.Some? ==> Others(r.value.1, name) == Others(rules, name)
    ensures Opens(com) && r.Some? && (forall k :: com.itemFault(k) != FILE_NOT_FOUND) ==> Count(r.value.1, name) == 0
  {
    if Failed(com.policyHr) then Some((com.policyHr, rules))
    else if Failed(com.rulesHr) then Some((com.rulesHr, rules))
    else
      match DeleteLoop(com, rules, name, 0, S_OK, fuel)
      case OutOfFuel => None
      case Stopped(lookup, ret, after, _) => Some((if lookup == DWORD_MINUS_ONE then 1 else ret, after))
  }

  /** The `return 1` after the loop can never run: whenever the call returns, it returns the last
   *  failed `Remove` code, or S_OK. */
  lemma DeleteRuleNeverReturnsOne(com: Com, rules: Store, name: string, fuel: nat)
    requires Opens(com)
    requires DeleteRule(com, rules, name, fuel).Some?
    ensures var loop := DeleteLoop(com, rules, name, 0, S_OK, fuel);
            loop.Stopped? && DeleteRule(com, rules, name, fuel).value.0 == LastFailure(com.removeFault, 0, loop.iterations, S_OK)
  {
  }

  /** A lookup that fails with anything but "not found" never ends the loop: a failing store spins forever. */
  lemma {:induction false} FailingLookupSpins(com: Com, rules: Store, name: string, i: nat, ret: HResult, fuel: nat)
    requires forall k :: Failed(com.itemFault(k)) && com.itemFault(k) != FILE_NOT_FOUND
    ensures DeleteLoop(com, rules, name, i, ret, fuel) == OutOfFuel
    decreases fuel
  {
    if fuel > 0 {
      assert Failed(com.itemFault(i)) && com.itemFault(i) != FILE_NOT_FOUND;
      var hr := com.removeFault(i);
      FailingLookupSpins(com, if Failed(hr) then rules else RemoveOne(rules, name), name, i + 1,
                         if Failed(hr) then hr else ret, fuel - 1);
      DeleteLoopStep(com, rules, name, i, ret, fuel);
    }
  }


  /** A `Remove` that keeps failing while the rule is present also keeps the loop going. */
  lemma {:induction false} FailingRemoveSpins(com: Com, rules: Store, name: string, i: nat, ret: HResult, fuel: nat)
    requires Count(rules, name) > 0
    requires forall k :: !Failed(com.itemFault(k)) && Failed(com.removeFault(k))
    ensures DeleteLoop(com, rules, name, i, ret, fuel) == OutOfFuel
    decreases fuel
  {
    if fuel > 0 {
      assert !Failed(com.itemFault(i)) && Failed(com.removeFault(i));
      FailingRemoveSpins(com, rules, name, i + 1, com.removeFault(i), fuel - 1);
      DeleteLoopStep(com, rules, name, i, ret, fuel);
    }
  }

  /** One pass of the loop: a non-zero lookup is followed by a `Remove` and the next lookup. */
  lemma DeleteLoopStep(com: Com, rules: Store, name: string, i: nat, ret: HResult, fuel: nat)
    requires fuel > 0 && CheckRule(ItemHr(com, rules, name, i)) != 0
    ensures DeleteLoop(com, rules, name, i, ret, fuel) ==
      DeleteLoop(com, if Failed(com.removeFault(i)) then rules else RemoveOne(rules, name), name, i + 1,
                 if Failed(com.removeFault(i)) then com.removeFault(i) else ret, fuel - 1)
    ensures CheckRule(ItemHr(com, rules, name, i)) == 1 ==>
      DeleteLoopIntended(com, rules, name, i, ret, fuel) ==
      DeleteLoopIntended(com, if Failed(com.removeFault(i)) then rules else RemoveOne(rules, name), name, i + 1,
                         if Failed(com.removeFault(i)) then com.removeFault(i) else ret, fuel - 1)
  {
  }


  /** The loop's outcome on a healthy store: every rule of that name gone, one pass per rule,
   *  every other rule kept, `ret` untouched. */
  ghost predicate RemovedAll(r: Loop, rules: Store, name: string, i: nat, ret: HResult)
  {
    r.Stopped? && r.lookup == 0 && r.ret == ret && r.iterations == i + Count(rules, name)
    && Count(r.rules, name) == 0 && Others(r.rules, name) == Others(rules, name)
  }

  /** On a healthy store the loop makes one pass per same-named rule and removes them all. */
  lemma {:induction false} HealthyDeleteRemovesAll(com: Com, rules: Store, name: string, i: nat, ret: HResult, fuel: nat)
    requires forall k :: !Failed(com.itemFault(k)) && !Failed(com.removeFault(k))
    requires fuel > Count(rules, name)
    ensures RemovedAll(DeleteLoop(com, rules, name, i, ret, fuel), rules, name, i, ret)
    decreases fuel
  {
    if Count(rules, name) > 0 {
      var next := RemoveOne(rules, name);
      HealthyDeleteRemovesAll(com, next, name, i + 1, ret, fuel - 1);
      assert !Failed(com.itemFault(i)) && !Failed(com.removeFault(i));
      HealthyPass(com, rules, name, i, ret, fuel);
    } else {
      assert !Failed(com.itemFault(i));
      HealthyStop(com, rules, name, i, ret, fuel);
    }
  }

  /** The base case of HealthyDeleteRemovesAll: nothing of that name is left, so the loop ends. */
  lemma HealthyStop(com: Com, rules: Store, name: string, i: nat, ret: HResult, fuel: nat)
    requires fuel > 0 && !Failed(com.itemFault(i)) && Count(rules, name) == 0
    ensures RemovedAll(DeleteLoop(com, rules, name, i, ret, fuel), rules, name, i, ret)
  {
    assert ItemHr(com, rules, name, i) == FILE_NOT_FOUND;
  }

  /** The inductive step of HealthyDeleteRemovesAll: one successful pass, then the rest. */
  lemma HealthyPass(com: Com, rules: Store, name: string, i: nat, ret: HResult, fuel: nat)
    requires fuel > 0 && !Failed(com.itemFault(i)) && !Failed(com.removeFault(i)) && Count(rules, name) > 0
    requires RemovedAll(DeleteLoop(com, RemoveOne(rules, name), name, i + 1, ret, fuel - 1), RemoveOne(rules, name), name, i + 1, ret)
    ensures RemovedAll(DeleteLoop(com, rules, name, i, ret, fuel), rules, name, i, ret)
  {
    DeleteLoopStep(com, rules, name, i, ret, fuel);
  }

  /** `DeleteRule` on a healthy store: S_OK, and no rule of that name left, for any number of them,
   *  including none. */
  lemma HealthyDeleteRule(com: Com, rules: Store, name: string, fuel: nat)
    requires Opens(com)
    requires forall k :: !Failed(com.itemFault(k)) && !Failed(com.removeFault(k))
    requires fuel > Count(rules, name)
    ensures var r := DeleteRule(com, rules, name, fuel);
            r.Some? && r.value.0 == S_OK && Count(r.value.1, name) == 0 && Others(r.value.1, name) == Others(rules, name)
  {
    HealthyDeleteRemovesAll(com, rules, name, 0, S_OK, fuel);
  }

  /** The loop as evidently intended by the `exists == -1` test: a failed lookup ends it. */
  function DeleteLoopIntended(com: Com, rules: Store, name: string, i: nat, ret: HResult, fuel: nat): (r: Loop)
    ensures r.Stopped? ==> (r.lookup == 0 || r.lookup == DWORD_MINUS_ONE) && r.iterations >= i
    ensures r.Stopped? ==> r.ret == LastFailure(com.removeFault, i, r.iterations, ret)
    ensures r.Stopped? ==> Others(r.rules, name) == Others(rules, name)
    ensures r.Stopped? && r.lookup == 0 && (forall k :: com.itemFault(k) != FILE_NOT_FOUND) ==> Count(r.rules, name) == 0
    ensures fuel > 0 && Failed(com.itemFault(i)) && com.itemFault(i) != FILE_NOT_FOUND ==>
              r == Stopped(DWORD_MINUS_ONE, ret, rules, i)
    decreases fuel
  {
    if fuel == 0 then OutOfFuel
    else
      var lookup := CheckRule(ItemHr(com, rules, name, i));
      if lookup == 0 || lookup == DWORD_MINUS_ONE then Stopped(lookup, ret, rules, i)
      else
        var hr := com.removeFault(i);
        var next := if Failed(hr) then rules else RemoveOne(rules, name);
        var r := DeleteLoopIntended(com, next, name, i + 1, if Failed(hr) then hr else ret, fuel - 1);
        LastFailureShift(com.removeFault, i, if r.Stopped? then r.iterations else i, ret);
        r
  }

  /** `DeleteRule` with the lookup error honoured: it returns 1 as soon as a lookup fails. */
  function DeleteRuleIntended(com: Com, rules: Store, name: string, fuel: nat): (r: Option<(HResult, Store)>)
    ensures Failed(com.policyHr) ==> r == Some((com.policyHr, rules))
    ensures !Failed(com.policyHr) && Failed(com.rulesHr) ==> r == Some((com.rulesHr, rules))
    ensures Opens(com) && r.Some? ==> Others(r.value.1, name) == Others(rules, name)
    ensures Opens(com) && fuel > 0 && Failed(com.itemFault(0)) && com.itemFault(0) != FILE_NOT_FOUND ==>
              r == Some((1, rules))
  {
    if Failed(com.policyHr) then Some((com.policyHr, rules))
    else if Failed(com.rulesHr) then Some((com.rulesHr, rules))
    else
      match DeleteLoopIntended(com, rules, name, 0, S_OK, fuel)
      case OutOfFuel => None
      case Stopped(lookup, ret, after, _) => Some((if lookup == DWORD_MINUS_ONE then 1 else ret, after))
  }

  /** With the fix, a store whose lookups always fail makes `DeleteRule` return 1 at once, where the
   *  code as written never returns. */
  lemma IntendedDeleteStopsOnLookupError(com: Com, rules: Store, name: string, fuel: nat)
    requires Opens(com) && fuel > 0
    requires forall k :: Failed(com.itemFault(k)) && com.itemFault(k) != FILE_NOT_FOUND
    ensures DeleteRuleIntended(com, rules, name, fuel) == Some((1, rules))
    ensures DeleteRule(com, rules, name, fuel) == None
  {
    FailingLookupSpins(com, rules, name, 0, S_OK, fuel);
  }

  /** Where lookups never fail, the fix changes nothing. */
  lemma {:induction false} IntendedAgreesWhenLookupsSucceed(com: Com, rules: Store, name: string, i: nat, ret: HResult, fuel: nat)
    requires forall k :: !Failed(com.itemFault(k))
    ensures DeleteLoopIntended(com, rules, name, i, ret, fuel) == DeleteLoop(com, rules, name, i, ret, fuel)
    decreases fuel
  {
    if fuel > 0 {
      assert !Failed(com.itemFault(i));
      if Count(rules, name) > 0 {
        var hr := com.removeFault(i);
        IntendedAgreesWhenLookupsSucceed(com, if Failed(hr) then rules else RemoveOne(rules, name), name, i + 1,
                                         if Failed(hr) then hr else ret, fuel - 1);
        AgreePass(com, rules, name, i, ret, fuel);
      } else {
        assert ItemHr(com, rules, name, i) == FILE_NOT_FOUND;
      }
    }
  }

  /** The inductive step of IntendedAgreesWhenLookupsSucceed. */
  lemma AgreePass(com: Com, rules: Store, name: string, i: nat, ret: HResult, fuel: nat)
    requires fuel > 0 && !Failed(com.itemFault(i)) && Count(rules, name) > 0
    requires var hr := com.removeFault(i);
             var next := if Failed(hr) then rules else RemoveOne(rules, name);
             var ret' := if Failed(hr) then hr else ret;
             DeleteLoopIntended(com, next, name, i + 1, ret', fuel - 1) == DeleteLoop(com, next, name, i + 1, ret', fuel - 1)
    ensures DeleteLoopIntended(com, rules, name, i, ret, fuel) == DeleteLoop(com, rules, name, i, ret, fuel)
  {
    DeleteLoopStep(com, rules, name, i, ret, fuel);
  }


}
