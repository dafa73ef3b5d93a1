/** The Go binding of the native firewall helper: the action, direction and protocol codes,
 *  the rule record, and how each exported call's return register is decoded. */
module Firewall {
  import opened Wrappers
  import opened Errors
  import Words
  import Dll = FirewallDll

  const NET_FW_ACTION_BLOCK: int := 0
  const NET_FW_ACTION_ALLOW: int := 1

  const NET_FW_RULE_DIR_IN: int := 1
  const NET_FW_RULE_DIR_OUT: int := 2

  const NET_FW_IP_PROTOCOL_ICMP: int := 1
  const NET_FW_IP_PROTOCOL_TCP: int := 6
  const NET_FW_IP_PROTOCOL_UDP: int := 17
  const NET_FW_IP_PROTOCOL_ANY: int := 256

  datatype Rule = Rule(
    name: string,
    action: int,
    direction: int,
    protocol: int,
    localAddresses: string,
    localPorts: string,
    remoteAddresses: string,
    remotePorts: string)

  /** The codes agree with the Windows Firewall API and the native helper's own TCP/UDP test. */
  lemma ProtocolCodes()
    ensures NET_FW_IP_PROTOCOL_TCP == Dll.NET_FW_IP_PROTOCOL_TCP && NET_FW_IP_PROTOCOL_UDP == Dll.NET_FW_IP_PROTOCOL_UDP
    ensures Dll.PortAllowed(NET_FW_IP_PROTOCOL_TCP) && Dll.PortAllowed(NET_FW_IP_PROTOCOL_UDP)
    ensures !Dll.PortAllowed(NET_FW_IP_PROTOCOL_ICMP) && !Dll.PortAllowed(NET_FW_IP_PROTOCOL_ANY)
    ensures NET_FW_ACTION_BLOCK != NET_FW_ACTION_ALLOW && NET_FW_RULE_DIR_IN != NET_FW_RULE_DIR_OUT
  {
  }

  /** `syscall.UTF16PtrFromString` fails (EINVAL) exactly on an embedded NUL. */
  predicate Utf16Convertible(s: string) { '\0' !in s }

  const EINVAL: Error := Msg("invalid argument")

  predicate Convertible(rule: Rule)
  {
    Utf16Convertible(rule.name) && Utf16Convertible(rule.localAddresses) && Utf16Convertible(rule.localPorts)
    && Utf16Convertible(rule.remoteAddresses) && Utf16Convertible(rule.remotePorts)
  }

  /** The stored rule a successful `CreateRule` adds: Go always passes five non-NULL strings, and
   *  the enumerations arrive as 32-bit `LONG`s. */
  function Stored(rule: Rule): (s: Dll.StoredRule)
    ensures s.name == rule.name && s.enabled
    ensures s.localAddresses == Some(rule.localAddresses) && s.remoteAddresses == Some(rule.remoteAddresses)
    ensures s.localPorts.Some? <==> Words.Int32(rule.protocol) == 6 || Words.Int32(rule.protocol) == 17
    ensures s.remotePorts.Some? <==> Words.Int32(rule.protocol) == 6 || Words.Int32(rule.protocol) == 17
  {
    Dll.BuildRule(rule.name, Words.Int32(rule.action), Words.Int32(rule.direction), Words.Int32(rule.protocol),
                  Some(rule.localAddresses), Some(rule.localPorts), Some(rule.remoteAddresses), Some(rule.remotePorts))
  }

  /** `Firewall.CreateRule`. `lastErr` is the text of the system error the call reports. */
  function CreateRule(rule: Rule, com: Dll.Com, rules: Dll.Store, lastErr: string): (r: (Outcome<Error>, Dll.Store))
    ensures !Convertible(rule) ==> r == (Fail(EINVAL), rules)
    ensures r.0.Pass? ==> r.1 == Dll.Append(rules, Stored(rule))
    ensures r.0.Fail? ==> r.1 == rules
    ensures Convertible(rule) ==>
              (r.0.Pass? <==> Dll.Opens(com) && !Dll.Failed(com.newRuleHr) && !Dll.Failed(com.addHr))
    ensures Convertible(rule) && r.0.Fail? ==> r.0.error == Msg("error creating rule: " + lastErr + "\n")
  {
    if !Convertible(rule) then (Fail(EINVAL), rules)
    else
      var (hr, after) := Dll.CreateRule(com, rules, Some(rule.name), Words.Int32(rule.action), Words.Int32(rule.direction),
                                        Words.Int32(rule.protocol), Some(rule.localAddresses), Some(rule.localPorts),
                                        Some(rule.remoteAddresses), Some(rule.remotePorts));
      if Words.Int32(hr) != 0 then (Fail(Msg("error creating rule: " + lastErr + "\n")), after)
      else (Pass, after)
  }

  /** How `Firewall.DeleteRule` reads the native result: success exactly when it is 0 as an `int32`. */
  function DecodeDelete(name: string, native: Option<(Dll.HResult, Dll.Store)>, rules: Dll.Store, lastErr: string)
    : (r: Option<(Outcome<Error>, Dll.Store)>)
  {
    if !Utf16Convertible(name) then Some((Fail(EINVAL), rules))
    else
      match native
      case None => None
      case Some((hr, after)) =>
        Some((if Words.Int32(hr) != 0 then Fail(Msg("error deleting rule: " + lastErr + "\n")) else Pass, after))
  }

  /** `Firewall.DeleteRule`, calling the native `DeleteRule` as it is written; `None` when that call
   *  had not returned within `fuel` lookups. */
  function DeleteRule(name: string, com: Dll.Com, rules: Dll.Store, lastErr: string, fuel: nat)
    : (r: Option<(Outcome<Error>, Dll.Store)>)
    ensures !Utf16Convertible(name) ==> r == Some((Fail(EINVAL), rules))
    ensures r.Some? && r.value.0.Fail? && Utf16Convertible(name) ==> r.value.0.error == Msg("error deleting rule: " + lastErr + "\n")
    ensures r.Some? ==> Dll.Others(r.value.1, name) == Dll.Others(rules, name)
    ensures Utf16Convertible(name) && !Dll.Opens(com) ==> r.Some? && r.value.0.Fail? && r.value.1 == rules
    ensures Utf16Convertible(name) && Dll.Opens(com) && r.Some? && (forall k :: com.itemFault(k) != Dll.FILE_NOT_FOUND) ==>
              Dll.Count(r.value.1, name) == 0
  {
    DecodeDelete(name, Dll.DeleteRule(com, rules, name, fuel), rules, lastErr)
  }

  /** A store whose lookups keep failing with anything but "not found" never lets the call return,
   *  however many lookups it is given: the Go caller waits for ever, and never sees an error. */
  lemma DeleteSpinsOnLookupError(name: string, com: Dll.Com, rules: Dll.Store, lastErr: string, fuel: nat)
    requires Utf16Convertible(name) && Dll.Opens(com)
    requires forall k :: Dll.Failed(com.itemFault(k)) && com.itemFault(k) != Dll.FILE_NOT_FOUND
    ensures DeleteRule(name, com, rules, lastErr, fuel) == None
  {
    Dll.FailingLookupSpins(com, rules, name, 0, Dll.S_OK, fuel);
  }

  /** `Firewall.DeleteRule` over the corrected native call, which honours a failed lookup. */
  function DeleteRuleIntended(name: string, com: Dll.Com, rules: Dll.Store, lastErr: string, fuel: nat)
    : (r: Option<(Outcome<Error>, Dll.Store)>)
    ensures !Utf16Convertible(name) ==> r == Some((Fail(EINVAL), rules))
    ensures r.Some? ==> Dll.Others(r.value.1, name) == Dll.Others(rules, name)
    ensures (Utf16Convertible(name) && Dll.Opens(com) && fuel > 0 && Dll.Failed(com.itemFault(0))
             && com.itemFault(0) != Dll.FILE_NOT_FOUND) ==>
              r == Some((Fail(Msg("error deleting rule: " + lastErr + "\n")), rules))
  {
    DecodeDelete(name, Dll.DeleteRuleIntended(com, rules, name, fuel), rules, lastErr)
  }

  /** Where lookups never fail, the Go call gives the same answer over either native call. */
  lemma DeleteAgreesWhenLookupsSucceed(name: string, com: Dll.Com, rules: Dll.Store, lastErr: string, fuel: nat)
    requires forall k :: !Dll.Failed(com.itemFault(k))
    ensures DeleteRuleIntended(name, com, rules, lastErr, fuel) == DeleteRule(name, com, rules, lastErr, fuel)
  {
    Dll.IntendedAgreesWhenLookupsSucceed(com, rules, name, 0, Dll.S_OK, fuel);
  }

  /** On a healthy store, deleting removes every rule of that name and succeeds, whether there were
   *  several or none. */
  lemma DeleteRemovesEverySameNamedRule(name: string, com: Dll.Com, rules: Dll.Store, lastErr: string, fuel: nat)
    requires Utf16Convertible(name) && Dll.Opens(com)
    requires forall k :: !Dll.Failed(com.itemFault(k)) && !Dll.Failed(com.removeFault(k))
    requires fuel > Dll.Count(rules, name)
    ensures var r := DeleteRule(name, com, rules, lastErr, fuel);
            r.Some? && r.value.0 == Pass && Dll.Count(r.value.1, name) == 0 && Dll.Others(r.value.1, name) == Dll.Others(rules, name)
  {
    Dll.HealthyDeleteRule(com, rules, name, fuel);
  }

  /** `Firewall.RuleExists`: an error exactly when the native result reads as -1, otherwise
   *  whether it was 1. */
  function RuleExists(name: string, com: Dll.Com, rules: Dll.Store, lastErr: string): (r: Result<bool, Error>)
    ensures !Utf16Convertible(name) ==> r == Failure(EINVAL)
    ensures Utf16Convertible(name) ==> (r.Failure? <==> Words.Int32(Dll.RuleExists(com, rules, name)) == -1)
    ensures r.Success? ==> (r.value <==> Dll.RuleExists(com, rules, name) == 1)
  {
    if !Utf16Convertible(name) then Failure(EINVAL)
    else
      var r0 := Dll.RuleExists(com, rules, name);
      if Words.Int32(r0) == -1 then Failure(Msg("error checking rule exists: " + lastErr + "\n"))
      else Success(r0 == 1)
  }

  /** A rule just created is reported as existing, and a name no rule carries as absent. */
  lemma CreatedRuleExists(rule: Rule, com: Dll.Com, rules: Dll.Store, lastErr: string, com2: Dll.Com)
    requires CreateRule(rule, com, rules, lastErr).0.Pass?
    requires Dll.Opens(com2) && !Dll.Failed(com2.itemFault(0))
    ensures RuleExists(rule.name, com2, CreateRule(rule, com, rules, lastErr).1, lastErr) == Success(true)
    ensures forall n :: Utf16Convertible(n) && Dll.Count(rules, n) == 0 && n != rule.name ==>
              RuleExists(n, com2, CreateRule(rule, com, rules, lastErr).1, lastErr) == Success(false)
  {
  }
}
