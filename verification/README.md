# winc in Dafny

This project models the decision logic of winc, a container runtime for Windows. winc drives
the Host Compute Service (HCS) to run containers and the Host Networking Service (HNS) to wire
them up. It also implements an image plugin and a network plugin. The model follows the
source's own modules:

- **Firewall.** The native helper in `firewall.c` creates, looks up and deletes Windows
  Firewall rules whose names need not be unique (`FirewallDll`). `Firewall` models the Go
  wrapper that decodes the helper's return codes.
- **Net rules.** `NetRules` covers the arithmetic that splits an IPv4 range into aligned CIDR
  blocks (section 3.1 of RFC 4632) and the renderings of address and port ranges. Each of the
  four appliers turns net-in and net-out rules into firewall rules, ACL or NAT policies or netsh
  calls: `NetworkApplier`, `FirewallApplier`, `NetshApplier` and the `WincNetwork` command.
- **Ports.** The port pool and its allocator: `PortPool` and `PortAllocator`.
- **Endpoints and networks.** The endpoint managers (`NetworkEndpoint`, `LegacyEndpoint`,
  `NatEndpointManager`) and the network manager (`NetworkManager`). They share bounded retry
  loops (`Retry`), clean up on failure and combine errors. `Mtu` models the MTU setter.
- **HCS client.** `HcsClient` covers the container-properties query, the polling for network
  interfaces and the layer calls.
- **Storage.** The image plugin's pieces: the resumable layer step machine (`Layer`), image
  create, delete and stats (`Image`), sandbox creation (`Sandbox`) and the two disk limiters
  (`DiskLimit`).
- **Containers.** The container manager of the `container` package (`ContainerManager`,
  `ContainerSetup`, `ContainerStatus`, `ContainerStats`), its state files (`ContainerState`)
  and its pid lookup (`ProcessList`). Bundle and process validation is in `BundleConfig` and
  `CliValidate`. `CmdLine` models the command line a process is started with.
- **Runtime.** The runtime's commands (`Runtime`), its container manager (`RuntimeContainer`)
  and its state manager (`RuntimeState`).

How collaborators appear in the model:

- Every collaborator is a value passed in: the firewall's COM store, HCS, HNS, netsh, the file
  system, the pool's state file, the clock and the process list.
- A collaborator that is asked more than once answers by call number, so that retry and
  polling loops meet every sequence of answers.
- An operation returns its result together with the calls it made, in order, wherever the
  source promises an order or the absence of a call.
- Go's unsigned wrap-around is written out wherever the source relies on it: `uint16` ports,
  `uint32` masks and pids, `uint64` sizes and nanosecond counts (`Words`).
- A Go panic is a result of its own (`Completion`).

Shared modules:

- `Wrappers`: Option, Result and Outcome.
- `Text`: decimal text, joining, splitting and trimming.
- `WinPath`: Go's `path/filepath` on Windows.
- `Errors`: the Go error values the code tells apart.
- `Oci`: the OCI runtime spec records.
- `Hns`: the HNS records.
- `Host`: the network appliers' interfaces.

Points where the code does something other than what it appears to intend:

- `DeleteRule` in `network/firewall/dll/firewall.c` (lines 126-149) keeps a lookup result in
  an unsigned `DWORD`. The comment above `RuleExists` (line 152) says the lookup returns -1 on
  an error, and `checkRule` (lines 182-197) returns -1 then. That -1 is a nonzero `DWORD`, so
  a failing lookup never ends the `while` loop. The loop ends only when the lookup returns 0.
  The `exists == -1` branch after it (lines 145-147) is therefore never taken. That branch
  shows the evident intent: a lookup error ends the delete with 1. `FirewallDll.DeleteRule`
  models the code as written. `FirewallDll.DeleteRuleIntended` models the intent.
- `CreateRule` in the same file checks for a null name only after the policy store is opened
  and a rule object made (lines 21-45). So a store that fails to open is reported before a
  missing name. The check is for a null pointer only: an empty but non-null name passes it,
  and the rule is added with an empty name.
- The container manager exists in two generations. `container/container.go` defines the
  methods, and `container/create.go`, `container/delete.go`, `container/start.go`,
  `container/state.go` and `container/stats.go` define them again. The `Create` and `Delete`
  of both generations differ only in whether the pid lookup and the state write go through
  the manager's own methods or through separate managers. The model states each shared step
  once.
- The runtime container manager's `Spec`, `Exec` and `makeCmdLine` are the same code as the
  container manager's `loadBundle` and `Exec` and as `makeCmdLine`. `ContainerManager.LoadBundle`,
  `ContainerManager.Exec` and `CmdLine.MakeCmdLineJoins` model them for both. The runtime's
  `parseMountOptions` is never called, because its call is commented out, so its `Create`
  maps every directory read-write (`RuntimeContainer.WritableConfigAgrees`).

## Model

| member | source | states |
|---|---|---|
| FirewallDll.Others | network/firewall/dll/firewall.c:131-135 | the rules of other names, the part of the collection `DeleteRule` must leave alone: none carries the name, every other name keeps its rules |
| FirewallDll.Append | network/firewall/dll/firewall.c:82 | `Add` puts exactly one more rule under its name and leaves every other rule as it was |
| FirewallDll.RemoveOne | network/firewall/dll/firewall.c:131-135 | `Remove(name)` takes away only one of several same-named rules, none when there is none, and nothing of another name |
| FirewallDll.PortAllowed | network/firewall/dll/firewall.c:94-96 | ports may be set exactly for TCP (6) and UDP (17) |
| FirewallDll.BuildRule | network/firewall/dll/firewall.c:47-80 | the rule carries the name, direction, action, enabled; a protocol only when non-zero; addresses when given; ports only when given and the protocol is TCP or UDP |
| FirewallDll.CreateRule | network/firewall/dll/firewall.c:14-92 | S_OK exactly when the store opens, the rule object is made, a name is given and `Add` succeeds, and then the collection gains exactly that rule; otherwise the failing step's code (1 for a missing name) and an unchanged collection |
| FirewallDll.CheckRule | network/firewall/dll/firewall.c:182-197 | the three-way answer: 0 exactly for "file not found", 1 exactly for success, 0xFFFFFFFF for any other failure |
| FirewallDll.RuleExists | network/firewall/dll/firewall.c:152-180 | 0xFFFFFFFF when the store cannot be opened; with a successful lookup, 1 exactly when a rule of that name exists and 0 exactly when none does |
| FirewallDll.LastFailureMeaning | network/firewall/dll/firewall.c:134-139 | `ret` after the loop is the default when no `Remove` failed, else the code of the last failing `Remove` |
| FirewallDll.DeleteLoop | network/firewall/dll/firewall.c:134-140 | when the loop stops its last lookup was 0, `ret` is the last failed `Remove` code, rules of other names are untouched, and with honest lookups no rule of the name is left |
| FirewallDll.DeleteRule | network/firewall/dll/firewall.c:106-150 | store failures are returned as they came with the collection unchanged; whenever the call returns, other rules are kept and, with honest lookups, the name is gone |
| FirewallDll.DeleteRuleNeverReturnsOne | network/firewall/dll/firewall.c:134-149 | the loop only stops on a 0 lookup, so the `exists == -1` branch is dead and the result is always the last failed `Remove` or S_OK |
| FirewallDll.FailingLookupSpins | network/firewall/dll/firewall.c:134 | a lookup failing with anything but "not found" keeps the `DWORD` condition non-zero, so the loop never stops |
| FirewallDll.FailingRemoveSpins | network/firewall/dll/firewall.c:134-140 | a `Remove` that keeps failing while the rule is present keeps the loop going forever |
| FirewallDll.DeleteLoopStep | network/firewall/dll/firewall.c:134-140 | one pass: a non-zero lookup is followed by a `Remove`, a recorded failure, and the next lookup |
| FirewallDll.HealthyDeleteRemovesAll | network/firewall/dll/firewall.c:131-140 | on a healthy store the loop makes one pass per same-named rule and removes them all, keeping every other rule |
| FirewallDll.HealthyDeleteRule | network/firewall/dll/firewall.c:106-150 | on a healthy store `DeleteRule` returns S_OK with no rule of the name left and every other rule kept, for any number of same-named rules |
| FirewallDll.DeleteLoopIntended | network/firewall/dll/firewall.c:134-147 | the loop as the `exists == -1` test intends: a failed lookup stops it with 0xFFFFFFFF and the collection as it stood |
| FirewallDll.DeleteRuleIntended | network/firewall/dll/firewall.c:106-150 | the corrected call returns 1 at once when the first lookup fails, and otherwise keeps rules of other names |
| FirewallDll.IntendedDeleteStopsOnLookupError | network/firewall/dll/firewall.c:134-147 | on a store whose lookups always fail the corrected call returns 1 while the call as written never returns |
| FirewallDll.IntendedAgreesWhenLookupsSucceed | network/firewall/dll/firewall.c:134-147 | where lookups never fail the correction changes nothing |
| Firewall.ProtocolCodes | network/firewall/firewall.go:20-42 | the Go constants agree with the native helper's: TCP and UDP admit ports, ICMP and "any" do not, and the actions and directions are distinct |
| Firewall.Stored | network/firewall/firewall.go:81-90 | the rule `CreateRule` hands down keeps its name, is enabled, always carries both address strings, and carries ports exactly when the protocol read as a 32-bit `LONG` is TCP or UDP |
| Firewall.CreateRule | network/firewall/firewall.go:55-97 | a string with a NUL fails with EINVAL before the native call; otherwise success exactly when the store opens, the rule object is made and `Add` succeeds, which adds exactly the stored rule; any failure leaves the rules unchanged and reports "error creating rule: …" |
| Firewall.DeleteRule | network/firewall/firewall.go:99-111 | wraps the native `DeleteRule` as written: a NUL in the name fails with EINVAL before the native call; a store that does not open fails with "error deleting rule: …" and leaves the rules as they were; rules of other names are never touched; when no lookup reports anything but not-found, a delete that returns leaves no rule of that name |
| Firewall.DeleteSpinsOnLookupError | network/firewall/dll/firewall.c:134-147 | on a store whose every lookup fails with an error other than not-found, the delete never returns, for any amount of fuel |
| Firewall.DeleteRuleIntended | network/firewall/firewall.go:99-111 | the same wrapper over the corrected native call: a failing first lookup ends the delete with "error deleting rule: …" and the rules unchanged; rules of other names are never touched |
| Firewall.DeleteAgreesWhenLookupsSucceed | network/firewall/firewall.go:99-111 | where no lookup fails, the wrapper over the native call as written and the one over the corrected call give the same result |
| Firewall.DeleteRemovesEverySameNamedRule | network/firewall/firewall.go:99-111 | on a healthy store deleting succeeds and leaves no rule of that name, however many there were, and every other rule stays |
| Firewall.RuleExists | network/firewall/firewall.go:113-125 | a NUL in the name fails with EINVAL; an error exactly when the native result is -1 as an `int32`; otherwise true exactly when it was 1 |
| Firewall.CreatedRuleExists | network/firewall/firewall.go:55-125 | a rule just created is then reported as existing, and a name no rule carries as absent |
| FirewallApplier.In | network/netrules/firewallapplier/firewall_applier.go:46-81 | a zero host port is first allocated, a given one never is; success exactly when allocation (if any), the inbound firewall rule and the URL reservation all succeed; the NAT policy is TCP with the container port and the host port truncated to 16 bits; the reservation runs only after the rule was created |
| FirewallApplier.InAgreesWithNetworkApplier | network/netrules/firewallapplier/firewall_applier.go:46-81 | the firewall applier's inbound rule makes the same calls as the HNS-era applier's and succeeds exactly when it does; on success its NAT policy is that applier's TCP port mapping with each port narrowed to 16 bits, and on failure both return the same error |
| FirewallApplier.Out | network/netrules/firewallapplier/firewall_applier.go:83-108 | an unknown protocol fails with "invalid protocol" and no call; otherwise one firewall rule named after the container, with the protocol's firewall code, the networks as remote addresses and remote ports only for TCP and UDP, and its creation's result |
| FirewallApplier.OutIsNetOutModifyHostVM | network/netrules/firewallapplier/firewall_applier.go:83-108 | the firewall applier's outbound rule is the HNS-era applier's host-side outbound rule, with the same calls and result; for a known protocol its only call creates the firewall rule that the outbound-rule builder makes for this container and address |
| FirewallApplier.Cleanup | network/netrules/firewallapplier/firewall_applier.go:110-128 | both the port release and the rule deletion are always attempted; success exactly when both succeed; one failure is returned as it came, two are joined as "a, b" |
| FirewallApplier.CleanupIsNetworkCleanup | network/netrules/firewallapplier/firewall_applier.go:110-128 | the firewall applier's cleanup is the HNS-era applier's cleanup, with the same two calls and the same combined result |
| FirewallApplier.OpenPort | network/netrules/firewallapplier/firewall_applier.go:130-133 | exactly one netsh call reserving the port's URL, whose result is returned |
| NetworkApplier.InboundRule | network/netrules/applier.go:71-78 | the inbound rule is an allow rule into the container, named after it, for TCP to the container's address |
| NetworkApplier.InboundRuleFiltersPort | network/netrules/applier.go:71-78 | since the rule is TCP, the stored rule admits exactly the container port in decimal, on the container's address |
| NetworkApplier.In | network/netrules/applier.go:59-92 | a zero host port is allocated first, a given one never is; success exactly when allocation (if any), the firewall rule and the URL reservation succeed; the mapping keeps the container port and the given or allocated host port; the reservation, for the container port, runs only after the rule was created |
| NetworkApplier.AclRemoteAddresses | network/netrules/applier.go:103-108 | no networks give "", one network gives its CIDR blocks joined by ", " |
| NetworkApplier.AclRemoteAddressesAppend | network/netrules/applier.go:103-108 | one more network appends ", " and its blocks |
| NetworkApplier.Out | network/netrules/applier.go:94-126 | a policy exactly for the four known protocols, with the protocol's firewall code, the joined CIDR blocks, and a remote port range only for TCP and UDP; otherwise "invalid protocol" |
| NetworkApplier.ContainerMTU | network/netrules/applier.go:128-139 | a non-zero MTU is set on the container's adapter as given; zero takes the NAT network adapter's MTU first, and a failing lookup ends the call before anything is set; the result is the `SetMTU` answer |
| NetworkApplier.NatMTU | network/netrules/applier.go:141-156 | a non-zero MTU is set on the NAT adapter as given; zero takes the MTU of the adapter holding the local IP, each lookup failure ending the call with its error |
| NetworkApplier.ExplicitMTUPassesThrough | network/netrules/applier.go:128-156 | with a non-zero MTU both variants only set it, with no lookup |
| NetworkApplier.Cleanup | network/netrules/applier.go:163-181 | the ports are released and the rule deleted regardless of each other; the result combines the two failures as `CombinePair` does |
| NetworkApplier.NetInModifyHostVM | network/netrules/applier_firewall.go:12-23 | exactly the inbound rule `In` creates, and its creation's result |
| NetworkApplier.OutboundRule | network/netrules/applier_firewall.go:25-47 | an outbound allow rule named after the container exactly for the four known protocols, with their firewall code, remote addresses from the networks and remote ports only for TCP and UDP; otherwise "invalid protocol" |
| NetworkApplier.OutboundRuleStoresPorts | network/netrules/applier_firewall.go:34-49 | once stored, an outbound rule has remote ports exactly when its protocol is TCP or UDP |
| NetworkApplier.NetOutModifyHostVM | network/netrules/applier_firewall.go:25-50 | an invalid protocol fails before the firewall is touched; a valid one creates exactly the outbound rule |
| NetworkApplier.OutVariantsAgree | network/netrules/applier.go:110-123 | the ACL and host-VM variants accept the same protocols and agree on the protocol code and the remote ports |
| NetworkApplier.CleanupModifyHostVM | network/netrules/applier_firewall.go:52-56 | one rule deletion under the container's name, whose result is returned |
| NetRules.OctetsRoundTrip | network/netrules/rules.go:101-114 | reading four octets big-endian (`ipToUint`) and splitting a 32-bit value back into octets (`cidrFromIntMask`) are inverse |
| NetRules.IPString | network/netrules/rules.go:44-46 | an address prints as dotted decimal, starting with its first octet and a dot |
| NetRules.PortRangeRendering | netrules/rules.go:53-55 | a port range prints as its two bounds around one '-', so splitting at '-' gives the bounds back; a single port p reads "p-p" |
| NetRules.FirewallRuleIPRange | netrules/rules.go:57-64 | no ranges give "", one range gives its own rendering |
| NetRules.IPRangeListAppend | network/netrules/rules.go:57-64 | one more range appends "," and its rendering, so the input order is kept |
| NetRules.FirewallRulePortRange | netrules/rules.go:66-73 | no ranges give "", one range gives its own rendering |
| NetRules.PortRangeListAppend | network/netrules/rules.go:66-73 | one more range appends "," and its rendering, so the input order is kept |
| NetRules.Size | network/netrules/rules.go:116-126 | a block of prefix length `len` holds between 1 and 2^32 addresses, at least 2 below /32, all 2^32 at /0 |
| NetRules.BitMask | network/netrules/rules.go:124-126 | the mask is a 32-bit value and is 0 for length 0 (a Go shift by 32 clears the word) |
| NetRules.BitMaskShape | network/netrules/rules.go:124-126 | for every length, the mask is `0xffffffff << (32 - len)` cut to 32 bits, which is the top `len` bits set and the rest clear |
| NetRules.First | network/netrules/rules.go:116-118 | `first` clears the low bits: it lies at most one block below `start` |
| NetRules.Last | network/netrules/rules.go:120-122 | `last` sets the low bits: it lies at or above `start`, exactly one block size minus one above `first` |
| NetRules.MaskLenFits | network/netrules/rules.go:81-87 | from an aligned block that fits, the inner loop stops at an aligned block ending by `end` that cannot be widened |
| NetRules.NextBlock | network/netrules/rules.go:80-90 | the block one pass emits starts at `start`, ends by `end`, and ends where `last` says |
| NetRules.NextBlockFits | network/netrules/rules.go:80-90 | the emitted block is aligned, ends by `end`, and no wider aligned block at `start` would |
| NetRules.Chain | network/netrules/rules.go:80-96 | the outer loop emits nothing exactly when `start > end`, and otherwise begins with the block chosen at `start` |
| NetRules.LargestBlockChooses | network/netrules/rules.go:81-89 | the inner loop's block begins at `start`, ends by `end`, and fits |
| NetRules.Cidrs | network/netrules/rules.go:75-99 | the blocks of a range: none exactly when the range is empty, else the first starts at `start` |
| NetRules.ChainEnd | network/netrules/rules.go:89-93 | the last block emitted ends exactly at `end` |
| NetRules.ChainContiguous | network/netrules/rules.go:90-95 | each block starts right after the previous one ends |
| NetRules.ChainFit | network/netrules/rules.go:80-96 | with a fitting choice every block of the chain fits |
| NetRules.CidrsFit | network/netrules/rules.go:75-99 | every block emitted is aligned, ends by `end`, and is the largest such block at its base |
| NetRules.ChainCovers | network/netrules/rules.go:80-96 | contiguous blocks from `start` ending at `end` cover exactly the addresses of [start, end] |
| NetRules.ChainAscends | network/netrules/rules.go:80-96 | contiguous blocks are strictly ascending, so no two overlap |
| NetRules.CidrsCoverExactly | network/netrules/rules.go:75-99 | the blocks cover an address exactly when it lies in [start, end], and no two of them overlap |
| NetRules.CidrsSingle | network/netrules/rules.go:75-99 | a one-address range is one /32 |
| NetRules.CidrsWholeSpace | network/netrules/rules.go:75-99 | 0.0.0.0 to 255.255.255.255 is the one block /0, and the loop stops at 0xffffffff instead of wrapping |
| NetRules.CidrStrings | network/netrules/rules.go:89 | one string per block, the i-th being the i-th block's base address as a dotted quad, a slash and its prefix length |
| NetRules.IPRangeToCIDRs | network/netrules/rules.go:75-99 | one CIDR string per aligned block of the range, in order, the i-th being the i-th block rendered as base address, slash and prefix length; none for a range whose start lies above its end |
| NetshApplier.FirstStop | netrules/applier.go:43-56 | the scan stops at the first policy that fails to decode or matches the container port, and at no earlier one |
| NetshApplier.FindMapping | netrules/applier.go:43-56 | no mapping exactly when no policy stops the scan; a mapping is the host and container port of the first matching NAT policy; an error is the first undecodable policy's, with nothing stopping the scan before it |
| NetshApplier.In | netrules/applier.go:36-63 | only container port 8080 or 2222 with host port 0 is accepted, otherwise "invalid port mapping" with no call; a decoding error ends the call; otherwise the found mapping (or the zero mapping) has its container port's URL reserved and is returned on success |
| NetshApplier.InMapsRequestedPort | netrules/applier.go:43-62 | when a policy matches, the returned mapping and the URL reservation are for the requested container port |
| NetshApplier.ProtocolName | netrules/applier.go:75-88 | the name is empty exactly for a protocol outside the four known ones |
| NetshApplier.OutArgs | netrules/applier.go:66-98 | the netsh arguments: "advfirewall firewall add rule", the quoted name, the local IP, the remote ranges, a remote port list only for TCP and UDP, and the protocol name last |
| NetshApplier.Out | netrules/applier.go:65-102 | ICMP succeeds with no call; an unknown protocol fails with "invalid protocol" and no call; otherwise one host netsh call, and success exactly when it succeeds |
| NetshApplier.Atoi | netrules/applier.go:160-163 | a digit string converts exactly when its value fits in a signed 64-bit integer, to that value |
| NetshApplier.HostMTU | netrules/applier.go:144-166 | one host netsh listing of the adapter; its error is returned; no digit run, or one too large for `Atoi`, gives "could not obtain host MTU"; otherwise the first digit run's value |
| NetshApplier.ContainerInterfaceName | netrules/applier.go:117 | outside insider preview the adapter is "vEthernet (Container NIC <id up to its first '-'>)", quoted, and the whole id when it has no '-' |
| NetshApplier.MTU | netrules/applier.go:104-124 | above 1500 fails with "invalid mtu specified" and no call; a given MTU is set in one container netsh call; a failed host lookup for 0 is returned; any set call uses an MTU of at most 1500 and its result is returned |
| NetshApplier.ZeroMTUUsesHostListing | netrules/applier.go:106-123 | a zero MTU sets the value read from the host listing, right after that listing |
| NetshApplier.Cleanup | netrules/applier.go:131-142 | a failing "show rule" means there is nothing to delete and the call succeeds after it alone; otherwise "delete rule" follows and its result is returned |
| Host.ProtocolTable | network/netrules/firewallapplier/firewall_applier.go:92-105 | the protocols the applier names are exactly TCP, UDP, ICMP and "all", and the two that carry port ranges are exactly those whose firewall code admits ports |
| Host.OpenPortArgs | network/netrules/firewallapplier/firewall_applier.go:131 | the netsh call adds an HTTP URL reservation for the Users group |
| Host.OpenPortArgsInjective | network/netrules/firewallapplier/firewall_applier.go:131 | different ports reserve different URLs |
| Host.VEthernet | network/mtu/mtu.go:33-57 | the adapter alias is the name wrapped in "vEthernet (" and ")", and the name can be read back out of it |
| Host.VEthernetInjective | network/mtu/mtu.go:33-57 | distinct names give distinct adapter aliases |
| Hns.NewEndpoint | network/endpoint/endpoint.go:56-75 | the endpoint request keeps its name, network and policies, has no allocators yet, and lists the DNS servers comma-separated, or none |
| Hns.MappingPolicy | network/endpoint/endpoint.go:165-171 | each mapping becomes a TCP NAT policy whose ports are the mapping's whenever they fit in 16 bits |
| Hns.FirstOfKind | network/endpoint/endpoint.go:113-119 | the index of the first allocator of the kind: all before it are of other kinds, and it is of that kind when there is one |
| NetworkEndpoint.CreateEndpointRetry | network/endpoint/endpoint.go:247-264 | one to three identical create requests; only the "Unspecified error" failure is retried, and three of them in a row end the call with that error; the result is the last answer |
| NetworkEndpoint.Request | network/endpoint/endpoint.go:56-75 | the requested endpoint is named after the container on the network's id; it carries a QoS policy exactly when a bandwidth limit is set, with the limit as an unsigned 64-bit value; the DNS servers are joined by "," |
| NetworkEndpoint.EndpointPortOf | network/endpoint/endpoint.go:110-119 | with no endpoint-port allocator the compartment id and port GUID stay 0 and "" |
| NetworkEndpoint.RuleName | network/endpoint/endpoint.go:125 | the rule name starts with "Compartment " and ends with the port GUID |
| NetworkEndpoint.RuleNameInjective | network/endpoint/endpoint.go:125 | distinct compartment ids or GUIDs give distinct rule names, so the rule deleted is the endpoint's own |
| NetworkEndpoint.DeleteFirewallRule | network/endpoint/endpoint.go:134-157 | one to three identical netsh delete calls; only "No rules match the specified criteria" is retried; the result is the last call's, and a third "no rules match" is returned as the error |
| NetworkEndpoint.AttachEndpoint | network/endpoint/endpoint.go:94-132 | the hot attach comes first and its failure ends the call; success returns the reloaded endpoint, whose endpoint-port allocator has a non-zero compartment and a GUID, after deleting the rule named from them; no endpoint is created or deleted here |
| NetworkEndpoint.CreateOnNetwork | network/endpoint/endpoint.go:77-91 | the create requests come first, and their failure is the result with nothing after |
| NetworkEndpoint.CreateOnNetworkCleansUp | network/endpoint/endpoint.go:77-91 | after a successful create the result is the attach result; a failed attach ends with the created endpoint's deletion, and a successful one never deletes it |
| NetworkEndpoint.Create | network/endpoint/endpoint.go:50-92 | the network is looked up by name first, and its failure ends the call; otherwise the endpoint is created and attached on that network |
| NetworkEndpoint.MappingPolicies | network/endpoint/endpoint.go:165-176 | one NAT policy per mapping, in order |
| NetworkEndpoint.PollNat | network/endpoint/endpoint.go:189-209 | at most ten reloads of the same endpoint; a success is the first reload showing a NAT allocator, after reloads that all succeeded without one; ten without NAT give "NAT not initialized in time"; as written a failed reload panics |
| NetworkEndpoint.ApplyMappingsWith | network/endpoint/endpoint.go:159-212 | no mappings return the endpoint untouched with no call; otherwise the update with the mapping policies appended comes first, then at most ten reloads, and a success carries a NAT allocator |
| NetworkEndpoint.ApplyMappingsAsWritten | network/endpoint/endpoint.go:159-212 | the code as written panics only after a successful update with at least one mapping |
| NetworkEndpoint.ApplyMappings | network/endpoint/endpoint.go:159-212 | the corrected call never panics: no mappings return the endpoint; otherwise one update then only reloads, and a success carries a NAT allocator |
| NetworkEndpoint.ApplyMappingsAsWrittenPanics | network/endpoint/endpoint.go:189-198 | a reload that fails right after the update makes the code as written read a nil endpoint and panic, where the corrected call returns the error |
| NetworkEndpoint.PollNatReadingsAgree | network/endpoint/endpoint.go:189-209 | while every reload succeeds, the code as written and the corrected one behave the same |
| NetworkEndpoint.IgnoreMissingContainer | network/endpoint/endpoint.go:224-228 | a detach error is kept exactly when it is not "compute system does not exist" |
| NetworkEndpoint.Delete | network/endpoint/endpoint.go:214-245 | a missing endpoint is success and any other lookup error is returned, with no further call; otherwise detach then delete always both run, success exactly when the detach passed or found no container and the delete passed, two failures joined as "a, b" |
| NetworkEndpoint.ProcessAclsFirewall | network/endpoint/endpoint_firewall.go:13-15 | the firewall build sends no ACL policies |
| NetworkEndpoint.ProcessAclsAcl | network/endpoint/endpoint_acl.go:10-30 | given ACLs are kept; with none, two block-everything policies (protocol 256), out then in |
| NetworkEndpoint.PostAttachAcl | network/endpoint/endpoint_acl.go:32-34 | the ACL build does nothing after attaching |
| NetworkEndpoint.AwaitAndDeleteRule | network/endpoint/endpoint_firewall.go:37-64 | at most three existence checks, each seeing no rule until the last; a lookup error is returned; a found rule is deleted and that result returned; three misses give "firewall rule … not generated in time" |
| NetworkEndpoint.PostAttachFirewall | network/endpoint/endpoint_firewall.go:17-35 | a missing compartment or GUID is an invalid-endpoint error with no call; otherwise the generated rule is awaited and deleted, in at most four calls |
| NetworkEndpoint.AwaitAndDeleteRuleBounds | network/endpoint/endpoint_firewall.go:40-57 | at most four calls, a deletion is always the last one, and three answers of "not there" give exactly three checks and the not-generated error |
| LegacyEndpoint.AclList | endpoint/endpoint.go:81-102 | two TCP block rules on the endpoint's address, inbound then outbound, followed by every given ACL with its local address set to the endpoint's |
| LegacyEndpoint.AttachAndLock | endpoint/endpoint.go:71-117 | success exactly when the hot attach and the ACL application both succeed, and then those are the only two calls; a failure returns that step's error after deleting the created endpoint |
| LegacyEndpoint.Create | endpoint/endpoint.go:41-118 | the network lookup comes first and its failure ends the call; the endpoint requested carries the container's name, the network's id, the NAT policies and the DNS servers; a failed create returns its error with nothing after; otherwise attach and lock |
| LegacyEndpoint.Delete | endpoint/endpoint.go:120-151 | a lookup failing with "Endpoint <id> not found" is success and any other is returned, with no further call; otherwise detach and delete both run and combine as in the newer manager |
| LegacyEndpoint.DeleteVariantsAgree | endpoint/endpoint.go:120-151 | where the endpoint exists or is reported missing, the older and the newer endpoint manager delete the same way |
| NatEndpointManager.NatNetwork | network/endpoint_manager.go:90-96 | the network created is of kind "nat", named as configured, with the one subnet 172.30.0.0/22 and gateway 172.30.0.1 |
| NatEndpointManager.FindNatNetwork | network/endpoint_manager.go:77-110 | at most ten rounds of lookup and create; only lookups and creates of the NAT network are asked; a network found or created in some round is returned; "no NAT network" only after all ten rounds or as an error some round returned |
| NatEndpointManager.NoNatNetworkAfterTenRounds | network/endpoint_manager.go:81-107 | when every lookup says "not found" and every create says "Object Exists", all twenty calls are made and the result is the no-NAT-network error |
| NatEndpointManager.LookupErrorEndsSearch | network/endpoint_manager.go:83-87 | a lookup error other than "not found" ends the search with a failure |
| NatEndpointManager.PortMapping | network/endpoint_manager.go:112-130 | an allocation failure is returned; otherwise a TCP NAT policy from the container port to the allocated host port, both truncated to 16 bits |
| NatEndpointManager.AttachOnNetwork | network/endpoint_manager.go:46-74 | the call fails exactly when it ends by releasing the container's ports; on success two host ports were allocated first, for 8080 then 2222, the endpoint was created with those two policies, and its id is the only entry of the endpoint list |
| NatEndpointManager.AttachEndpointToConfig | network/endpoint_manager.go:39-75 | a failed network search is returned with nothing after it; otherwise its calls come first and attaching decides the result, which on success lists exactly one endpoint |
| NatEndpointManager.AttachedEndpointMapsAllocatedPorts | network/endpoint_manager.go:39-75 | after a successful attach the NAT network was found and both ports were allocated; the endpoint created on that network, named after the container, carries exactly two TCP NAT policies, 8080 to the first allocated host port and 2222 to the second, and the config holds that endpoint's id alone |
| NatEndpointManager.DeleteCalls | network/endpoint_manager.go:166-179 | every endpoint whose lookup succeeds is deleted; only lookups and deletes are asked |
| NatEndpointManager.FirstFailedDelete | network/endpoint_manager.go:166-187 | the first endpoint whose delete fails, with none failing before it |
| NatEndpointManager.DeleteEndpointsById | network/endpoint_manager.go:166-190 | every endpoint that can be looked up is deleted, and lookup failures are skipped; the ports are released exactly when no delete failed, and then that is the result; otherwise the first delete error is returned |
| NatEndpointManager.DeleteEndpointsByIdPassesIff | network/endpoint_manager.go:166-190 | deleting by id passes exactly when every endpoint that can be looked up is deleted without error and the port release passes; when the ports are released, that is the last call |
| NatEndpointManager.DeleteContainerEndpoints | network/endpoint_manager.go:152-164 | a statistics error is returned with no call; otherwise the endpoints listed in the statistics are deleted by id |
| NetworkManager.SubnetsMatchIsEquality | network/network_manager.go:92-94 | two subnets match exactly when they are equal, prefix and gateway |
| NetworkManager.HostNatNetwork | network/network_manager.go:68-86 | the network created is a "nat" network of the configured name with the one configured subnet, and DNS servers only when some are configured |
| NetworkManager.CreateHostNATNetwork | network/network_manager.go:62-90 | the lookup comes first; an error other than "not found" is returned; an existing network is accepted exactly when its subnets are the one configured subnet and otherwise is a same-name error, with no further call; a missing one is created, and only then |
| NetworkManager.CreateHostNATNetworkIdempotent | network/network_manager.go:62-90 | once the network was created, a second call finds it and succeeds without creating anything |
| NetworkManager.DeleteHostNATNetwork | network/network_manager.go:96-107 | a lookup failing with exactly "Network <name> not found" is success and any other is returned, with no further call; a found network is deleted and that result returned |
| NetworkManager.FirstFailedIn | network/network_manager.go:123-129 | the first net-in rule the applier refuses, all before it accepted |
| NetworkManager.FirstFailedOut | network/network_manager.go:131-135 | the first net-out rule the applier refuses, all before it accepted |
| NetworkManager.Up | network/network_manager.go:109-155 | more than two net-in rules fail with "invalid number of port mappings: n" before any call; on success every request of the schedule was made, the container IP is the local IP, the deprecated host IP is 255.255.255.255, and the k-th mapping is what the k-th net-in rule gave |
| NetworkManager.UpFollowsSchedule | network/network_manager.go:116-151 | the requests are made in schedule order (endpoint lookup, net-in rules, net-out rules, MTU, local IP) and none beyond it |
| NetworkManager.UpStopsAtFirstFailure | network/network_manager.go:116-151 | every request before the last one made succeeded, and the call fails exactly when its last request failed |
| NetworkManager.UpSucceedsIff | network/network_manager.go:109-155 | `Up` succeeds exactly when every request on its schedule succeeds |
| NetworkManager.Down | network/network_manager.go:157-159 | tearing down is the applier's cleanup: it fails exactly when that fails, with that error |
| WincNetwork.ParseArgs | cmd/winc-network/main.go:205-227 | a flag-syntax error is returned first; then a missing handle and then a missing action are refused with their messages; otherwise the parsed flags come back unchanged |
| WincNetwork.OpenPortCommandIsApplierArgs | cmd/winc-network/main.go:229-232 | the URL reservation run in the container is the one the netsh applier reserves, for the same user group |
| WincNetwork.RunProcess | cmd/winc-network/main.go:237-249 | exactly one process runs; it passes exactly when it exits with 0, and a non-zero exit is reported with the caller's error |
| WincNetwork.OpenPort | cmd/winc-network/main.go:229-250 | exactly one `netsh http add urlacl` process for the port; a non-zero exit is "failed to open port: p" |
| WincNetwork.MtuCommandIsApplierArgs | cmd/winc-network/main.go:261-263 | the MTU command names the container adapter as the netsh applier names it, with the same MTU and persistence |
| WincNetwork.SetMTU | cmd/winc-network/main.go:252-282 | an MTU of 0 does nothing; above 1500 is refused with "invalid mtu specified" before anything runs; otherwise one command runs and the call passes exactly when it exits with 0 |
| WincNetwork.OpenSteps | cmd/winc-network/main.go:118-142 | a run of accepted net-in rules makes one port reservation per rule, in rule order |
| WincNetwork.FirstFailedIn | cmd/winc-network/main.go:118-142 | the first net-in rule that does not get through, all before it did |
| WincNetwork.NetInLoop | cmd/winc-network/main.go:116-142 | the loop succeeds exactly when every rule gets through, then having reserved every port and reported the mappings the policies give; on failure it stopped at the first failing rule, a rule other than container port 8080/2222 with host port 0 being "invalid port mapping" |
| WincNetwork.FoundMapsPort | cmd/winc-network/main.go:128-135 | a mapping found for a container port maps that port |
| WincNetwork.MappedFromRules | cmd/winc-network/main.go:116-142 | there are never more mappings than rules, as many exactly when every rule found its NAT policy, and each is the policy some rule found |
| WincNetwork.MappedCount | cmd/winc-network/main.go:116-142 | at most one mapping per rule, and one for each exactly when every rule finds its policy |
| WincNetwork.MappedMembers | cmd/winc-network/main.go:123-136 | each reported mapping is the NAT policy found for some rule's container port |
| WincNetwork.MappedInRuleOrder | cmd/winc-network/main.go:116-142 | when every rule finds its policy, the k-th mapping is the k-th rule's and maps that rule's container port |
| WincNetwork.NetshStep | cmd/winc-network/main.go:150-184 | a rule with a named protocol makes at most one netsh call, and none exactly when it is ICMP |
| WincNetwork.NetshSteps | cmd/winc-network/main.go:150-185 | a run of rules makes no more netsh calls than it has rules |
| WincNetwork.FirstFailedOut | cmd/winc-network/main.go:150-185 | the first net-out rule that does not get through, all before it did |
| WincNetwork.NetOutLoop | cmd/winc-network/main.go:150-185 | the loop passes exactly when every rule gets through; on failure it stopped at the first failing rule: an unnamed protocol is "invalid protocol" with no call for it, otherwise that rule's netsh call was the last and its error is returned |
| WincNetwork.NetOutRuleAgreesWithApplier | cmd/winc-network/main.go:150-184 | a rule with a named protocol makes exactly the host calls the netsh applier's `Out` makes, with the same arguments, and passes exactly when the applier's does |
| WincNetwork.NetworkUp | cmd/winc-network/main.go:80-192 | an input decode error is returned; more than two net-in rules are refused before any call; a container without exactly one endpoint is refused after the statistics call; on success every net-in and net-out rule got through, the container IP is the local IP, the deprecated host IP is 255.255.255.255, and the calls are statistics, endpoint, local IP, port reservations, netsh rules and the MTU command in that order |
| WincNetwork.NetworkDown | cmd/winc-network/main.go:194-203 | down runs one netsh delete of the rule named after the container and always succeeds |
| WincNetwork.NetworkDownDeletesApplierRule | cmd/winc-network/main.go:195-200 | the rule deleted has the arguments the netsh applier's cleanup uses for the same container |
| WincNetwork.Command | cmd/winc-network/main.go:40-78 | bad arguments print "invalid args: ...", an unreadable configuration "configFile: ..."; the command prints nothing exactly when the arguments parse, the configuration (if named) reads, and the action is "down" or an "up" that succeeds; any other action is "invalid action: a" |
| PortPool.Candidate | network/port_allocator/pool.go:58-59 | the i-th candidate is the start port plus i, wrapped to 16 bits |
| PortPool.InRangeAgreesWithoutWrap | network/port_allocator/pool.go:49-51 | where the range ends below 65536, the as-written bound check and the wrap-aware one agree on every port |
| PortPool.InRangeAsWrittenMissesWrappedRange | network/port_allocator/pool.go:49-51 | a range reaching past 65535 makes the as-written check reject ports the tracker itself hands out (65531 from start 65530 with capacity 10; 65000 from start 65000 with capacity 536) |
| PortPool.Offset | network/port_allocator/pool.go:49-59 | every port is some candidate's, and it is in range exactly when that candidate's index is below the capacity |
| PortPool.CandidateOffset | network/port_allocator/pool.go:58-59 | the offset of the i-th candidate is i, for every i below 65536 |
| PortPool.AcquireOne | network/port_allocator/pool.go:53-66 | it fails with "port pool exhausted" and leaves the pool alone exactly when every candidate is taken; otherwise the port is free, in range, every earlier candidate is taken, and only that port is recorded, for the handle |
| PortPool.ReleaseAll | network/port_allocator/pool.go:68-75 | it never fails; exactly the handle's ports leave the pool and every other port keeps its handle |
| PortPool.AcquireThenRelease | network/port_allocator/pool.go:53-75 | releasing a handle that held no port before it acquired one gives back the pool it started from |
| PortPool.Group | network/port_allocator/pool.go:14-24 | the state file lists every port under its own handle, and lists no port under another |
| PortPool.Ungroup | network/port_allocator/pool.go:26-42 | every listed port is in the pool read back, and each one maps to a handle whose list holds it |
| PortPool.GroupRoundTrip | network/port_allocator/pool.go:14-42 | writing the pool to the state file and reading it back gives the same pool, whatever order either side visits its map in |
| PortPool.GroupContents | network/port_allocator/pool.go:14-24 | a handle's list holds exactly its ports, and every handle with a port has a list |
| PortAllocator.CheckRequested | network/port_allocator/port_allocator.go:25-31 | a requested port is returned exactly when the as-written `InRange` does not hold, and otherwise refused with "cannot specify port from allocation range" |
| PortAllocator.CheckRequestedIntended | network/port_allocator/port_allocator.go:25-31 | the same check over the wrap-aware range: a port it grants is never one of the pool's candidates |
| PortAllocator.CheckRequestedAgreesWithoutWrap | network/port_allocator/pool.go:49-51 | where the range ends below 65536 the as-written and the wrap-aware checks give the same answer for every port |
| PortAllocator.RequestedPortCollidesWithPool | network/port_allocator/port_allocator.go:25-31 | with start 65530 and capacity 10, a caller asking for 65531 is granted it although the pool hands 65531 out as its second candidate; the wrap-aware check refuses it |
| PortAllocator.AllocatePort | network/port_allocator/port_allocator.go:24-56 | a requested port is refused with "cannot specify port from allocation range" when the as-written `InRange` (with its `uint16` wrap) holds and otherwise returned, without touching the state file; port 0 opens the lock, decodes the pool, fails with "acquire port: port pool exhausted" exactly when every candidate is taken, and otherwise writes back the pool with one new free in-range port for the handle; each failure carries its prefix |
| PortAllocator.ReleaseAllPorts | network/port_allocator/port_allocator.go:58-81 | lock and decode failures are returned with their prefixes; otherwise the pool written back holds exactly the ports of other handles, and the call passes exactly when the write does |
| Mtu.SetContainer | network/mtu/mtu.go:31-42 | a non-zero MTU is set on "vEthernet (<container id>)" in one call; zero first looks up "vEthernet (<network name>)" and, when found, sets its MTU on the container's adapter; a failed lookup is the failure |
| Mtu.SetNat | network/mtu/mtu.go:44-59 | a non-zero MTU is set on "vEthernet (<network name>)" in one call; zero first asks for the local IP, and succeeds only when that and the adapter holding it are found |
| Mtu.AgreesWithApplier | network/mtu/mtu.go:31-59 | the stand-alone setters and the rule applier's MTU methods make the same calls and give the same answer, for every MTU and every host |
| HcsClient.GetContainerProperties | hcs/client.go:50-69 | the query names the one id and the "winc" owner; a query error is returned; no match is a not-found error and more than one a duplicate error, both naming the id; exactly one match is the answer |
| HcsClient.GetContainerPropertiesCardinality | hcsclient/hcsclient.go:72-91 | a success is the only container the query matched, and each cardinality error comes from an empty or a multiple answer (or the query's own error of that kind) |
| HcsClient.FirstSettledCheck | hcs/client.go:92-103 | the first of the ten interface checks that errs or sees the adapter, all before it answering "not yet" |
| HcsClient.AwaitInterface | hcs/client.go:92-107 | at most ten checks; every check before the last answered "not yet"; the wait passes exactly when the last one saw the adapter, returns the last check's error, and reports the caller's error only after ten "not yet" answers |
| HcsClient.AwaitInterfacePassesIff | hcs/client.go:89-107 | the wait passes exactly when some check within ten sees the adapter with every earlier one answering "not yet"; ten "not yet" answers give the caller's error |
| HcsClient.CreateNetwork | hcs/client.go:83-110 | a create error is returned without checking; a created network is returned exactly when its "vEthernet (<name>)" adapter is seen in time, and otherwise "interface ... not created in time" when it never is |
| HcsClient.HotAttachEndpoint | hcs/client.go:132-159 | an attach error is returned; after attaching, the call passes exactly when "vEthernet (<container id>)" is seen in time, and otherwise "container interface ... not created in time" when it never is |
| HcsClient.CreateLayer | hcs/client.go:165-181 | the lock, create, activate and prepare steps run in that order; it passes exactly when all four do, and otherwise stops at and returns the first failure |
| HcsClient.FirstDestroyed | hcs/client.go:186-193 | the first of the three removal rounds whose destroy succeeds, all before it failing |
| HcsClient.RemoveSteps | hcs/client.go:186-190 | each round is unprepare, deactivate, destroy, in that order |
| HcsClient.RemoveLayerAsWritten | hcs/client.go:183-196 | the rounds stop after the first successful destroy, at most three; removal succeeds exactly when some destroy does; when all three fail it panics exactly when the last unprepare or deactivate succeeded, since it takes the text of a nil error |
| HcsClient.RemoveLayerAsWrittenPanics | hcs/client.go:195 | three failed destroys after successful unprepare and deactivate make the removal panic |
| HcsClient.RemoveLayer | hcs/client.go:183-196 | the same rounds; removal succeeds exactly when some destroy does; otherwise it reports the last round's three results, a successful step printed as "<nil>"; wherever the as-written removal returns, it returns the same |
| Layer.NewManager | layer/layer.go:49-61 | a new manager keeps the store path as its home directory and remembers no failed step |
| Layer.CreateResume | layer/layer.go:71-95 | a remembered failure resumes creation at the step that failed, and no failure at the first step |
| Layer.RemoveResume | layer/layer.go:111-126 | a remembered failure resumes removal at the step that failed, and no failure at the first step |
| Layer.FirstFailing | layer/layer.go:71-105 | the first step from the resume point whose answer is a failure, all before it succeeding |
| Layer.CreateAnswers | layer/layer.go:75-99 | the four creation steps answer as the create, activate, prepare and mount-path calls do, the last failing only on an error |
| Layer.RemoveAnswers | layer/layer.go:115-130 | the three removal steps answer as the unprepare, deactivate and destroy calls do |
| Layer.CreateLayer | layer/layer.go:63-108 | a store directory error is returned first; the steps run from the remembered failure on; the first failing step is remembered and its error returned with no further step; an empty mount path is a missing-volume-path error and changes nothing remembered; success returns the mount path |
| Layer.RemoveLayer | layer/layer.go:110-136 | the steps run from the remembered failure on; the first failing step is remembered and its error returned; success leaves the remembered step unchanged |
| Layer.CreateResumesAtFailedStep | layer/layer.go:63-108 | after a failed creation step, a retry starts at that step; when every step it runs succeeds it returns the mount path, the two calls together having made each step's call from the first resume point on |
| Layer.FirstCallRecordsFailure | layer/layer.go:71-99 | a failed creation remembers the failing step and made exactly the calls up to it |
| Layer.RetryRunsRest | layer/layer.go:71-107 | a call resuming at step k whose steps all succeed makes exactly the calls from k on and returns the mount path |
| Layer.ResumeAtFailure | layer/layer.go:71-99 | resuming at a remembered failure resumes at that failure's step |
| Layer.RemoveResumesAtFailedStep | layer/layer.go:110-136 | after a failed removal step a retry starts at that step, and a retry whose steps succeed completes the removal, each step's call made once from the first resume point on |
| Layer.RetryableIff | layer/layer.go:150-153 | an error whose text holds "This operation returned because the timeout period expired" is retryable; a nil error or a shorter text never is |
| Sandbox.NewManager | sandbox/sandbox.go:41-54 | the manager keeps the bundle path, and its layer id is the path's last element, never empty |
| Sandbox.ReadParents | sandbox/sandbox.go:56-79 | a missing bundle directory, a missing rootfs, an unreadable and an unparsable layer chain are refused in that order with their typed errors (other stat errors as they came); otherwise the value is the parsed parent chain |
| Sandbox.MakeLayer | sandbox/sandbox.go:81-103 | create, activate, prepare and the chain write run in that order and stop at the first failure, which is returned; the bundle's chain is the rootfs followed by its parents |
| Sandbox.CreateAsWritten | sandbox/sandbox.go:56-104 | the checks' failures are returned before any layer call, and the call panics exactly when the layer chain is the empty list |
| Sandbox.EmptyChainPanics | sandbox/sandbox.go:76-81 | a rootfs whose chain file holds an empty list makes the as-written create panic, while the corrected one reports an invalid layer chain and makes no call |
| Sandbox.Create | sandbox/sandbox.go:56-104 | the checks' failures are returned before any layer call; an empty chain is an invalid layer chain; with a non-empty chain the result and calls are exactly the layer steps on the first parent with the whole chain; on success the bundle's chain is the rootfs followed by its parents |
| Sandbox.CreateAgreesWhenReturning | sandbox/sandbox.go:56-104 | wherever the as-written create returns, the corrected one returns the same result with the same calls |
| Sandbox.LayerFiles | sandbox/sandbox.go:16 | one bundle file per sandbox file name |
| Sandbox.FirstUnremoved | sandbox/sandbox.go:115-120 | the first sandbox file whose removal fails, every earlier one removed |
| Sandbox.RemoveEach | sandbox/sandbox.go:115-122 | the files are removed one by one in order; the call passes exactly when every removal does, and otherwise stops at the first failing one with an error naming that file |
| Sandbox.Delete | sandbox/sandbox.go:106-123 | unprepare, then deactivate, each failure returned with no further call; then the sandbox files are removed in order |
| Sandbox.LayerFilesInBundle | sandbox/sandbox.go:115-116 | for a cleaned absolute bundle path, each sandbox file is directly inside the bundle |
| Sandbox.DeleteRemovesOnlySandboxFiles | sandbox/sandbox.go:106-123 | for a cleaned absolute bundle path, everything deleted is one of the four sandbox files directly inside the bundle |
| Sandbox.InBundle | sandbox/sandbox.go:116 | joining a plain name onto a cleaned absolute bundle path puts it directly inside the bundle |
| Sandbox.MountPathInBundle | sandbox/sandbox.go:129-131 | the mount point of a cleaned absolute bundle path is its `mnt` child |
| Sandbox.Mount | sandbox/sandbox.go:133-145 | the mount point is made first and a failure returned; then PowerShell is asked for the volume of the sandbox disk and an error returned; then that volume, trimmed of space, is mounted there and the mount's answer returned |
| Sandbox.Unmount | sandbox/sandbox.go:147-153 | `mountvol <mnt> /D` runs first and a failure is returned; then the mount point is removed and that answer returned |
| Sandbox.UnmountUndoesMount | sandbox/sandbox.go:133-153 | unmounting removes the very directory mounting made, through the same `mountvol` command |
| LayerChain.CheckExists | image/image.go:59-64 | a present path passes, a missing one fails with the caller's typed error, and any other stat failure is returned as it came |
| LayerChain.ReadChain | image/image.go:66-69 | the chain text is read from `<rootfs>\layerchain.json`, and any read error becomes a missing-layer-chain error naming the rootfs |
| LayerChain.ParseChain | image/image.go:79-82 | text that is not a JSON list of strings is an invalid-layer-chain error naming the rootfs; otherwise the parsed list |
| Image.Delete | image/image.go:119-130 | a lookup error is returned; a missing layer is skipped with success and no removal; an existing one is removed and the removal's answer returned |
| Image.Prepare | image/image.go:59-83 | a missing rootfs, an unreadable chain, an existing layer and an unparsable chain are refused in that order with their errors; otherwise the layer folders are the rootfs followed by its parents |
| Image.Provision | image/image.go:91-106 | the call passes exactly when the disk limit is set, the usage is measured and the measured size is written to `image_info`; a limiter error is returned as it came |
| Image.Create | image/image.go:58-117 | a failed check is returned with no layer call and no cleanup; a cleanup delete runs exactly when a step from the layer's creation on failed; success returns a spec whose root is the created volume and whose layer folders start with the rootfs |
| Image.ParseUint64 | image/image.go:148-151 | the text parses exactly when it is a non-empty run of decimal digits below 2^64, and then to their value |
| Image.RecordedSizeRoundTrip | image/image.go:102-148 | the size written as decimal text reads back as the same number |
| Image.Stats | image/image.go:132-159 | the call succeeds exactly when the mount path, the usage and the recorded size are all obtained and the record parses; the total is the usage and the exclusive use is the usage minus the recorded size in 64-bit unsigned arithmetic |
| Image.StatsOfRecordedSize | image/image.go:96-159 | reading back the size `Create` recorded, the exclusive use is the growth since creation, and wraps past 2^64 when the volume has shrunk |
| DiskLimit.Utf16 | image/volume/limiter.go:33-36 | a path converts exactly when it holds no NUL character |
| DiskLimit.SetQuota | image/volume/limiter.go:24-43 | `SetQuota` is called with the given size exactly when the executable is found and the path converts; the call passes exactly when the low 32 bits of its return value, read as signed, are 0, and otherwise reports "error setting quota: <last error>" |
| DiskLimit.StatusIsLowWord | image/volume/limiter.go:38-39 | a return value of 2^32 counts as success, since only its low 32 bits are read |
| DiskLimit.ImageSetDiskLimitAsWritten | image/volume/limiter.go:17-44 | zero sets no quota; any other size sets the size plus 6144 bytes, wrapped to 64 bits |
| DiskLimit.OverheadWraps | image/volume/limiter.go:22 | a request within 6144 of 2^64 makes the as-written limiter set a quota smaller than the overhead itself |
| DiskLimit.ImageSetDiskLimit | image/volume/limiter.go:17-44 | zero sets no quota and passes, and is the only size that does; any quota set is at least the request and below 2^64, and is the request plus 6144 whenever that fits |
| DiskLimit.ImageLimitAgreesBelowWrap | image/volume/limiter.go:17-44 | wherever the request plus the overhead fits in 64 bits, the corrected limiter and the as-written one agree |
| DiskLimit.VolumeSetDiskLimit | volume/limiter.go:17-46 | zero sets no quota; a size below 1500 is refused before any system call with "requested disk quota n less than minumum (1500 bytes)"; any quota set is the request itself |
| DiskLimit.ImageLimitAboveVolumeLimit | volume/limiter.go:17-46 | wherever both limiters reach the system, the image plugin's quota is at least the runtime's, and strictly more below the largest 64-bit size |
| BundleConfig.Quoted | container/config/config.go:106 | the quoted form is wrapped in double quotes, no shorter than the text plus its quotes, and reads back through `strconv.Unquote` as exactly the text |
| BundleConfig.EscapeChar | container/config/config.go:106 | a character is written as it is exactly when it is printable and neither a quote nor a backslash; every other character becomes an escape starting with a backslash |
| BundleConfig.UnescapeChar | container/config/config.go:106 | each character's escape reads back as that character, whatever follows it |
| BundleConfig.EscapesRoundTrip | container/config/config.go:106 | the escaped text of any string reads back as exactly that string |
| BundleConfig.CheckSemVer | container/config/config.go:137-149 | no message exactly when the version parses with the handled major version; an unparsable version gives the "is not a valid SemVer" message and another major version the "only handles version" message |
| BundleConfig.ValidateBundle | container/config/config.go:23-53 | a missing bundle, a missing, non-UTF-8 and non-JSON `config.json` are refused in that order with their typed errors; success exactly when the file parses and no platform, mandatory-field or version message arises, returning the parsed spec; a validation error carries all those messages |
| BundleConfig.Merge | container/config/config.go:85-101 | with no overrides the process is unchanged |
| BundleConfig.MergeFieldwise | container/config/config.go:85-101 | each override field replaces the process's exactly when it is non-empty; applying the same overrides twice changes nothing more, and empty overrides change nothing |
| BundleConfig.EnvValid | container/config/config.go:129-135 | an environment entry is valid exactly when it holds a '=' |
| BundleConfig.EnvMessages | container/config/config.go:113-117 | at most one message per entry, and none exactly when every entry is valid |
| BundleConfig.EnvMessagesContents | container/config/config.go:113-117 | the messages are exactly those of the invalid entries |
| BundleConfig.ProcessMessages | container/config/config.go:105-117 | no message exactly when the cwd is absolute, there are arguments and every environment entry holds '='; the cwd message appears exactly for a relative cwd, the args message exactly for no arguments, and one message for each bad entry |
| BundleConfig.NotAnEnvMessage | container/config/config.go:106-115 | the cwd and args messages are never taken for environment messages |
| BundleConfig.ValidateProcess | container/config/config.go:63-127 | a named process file that is missing, not UTF-8 or not JSON is refused with its typed error; otherwise the process is the file's (or, without a file, one whose cwd is C:\) merged with the overrides, its cwd made a Windows path; it is returned exactly when its cwd is absolute, it has arguments and every environment entry is valid, and otherwise refused with exactly its validation messages, which are never empty |
| BundleConfig.RootIsSystemDrive | container/config/config.go:151-157 | "/" becomes the root of drive C:, and so does the default cwd |
| BundleConfig.DefaultCwd | container/config/config.go:70-71 | without a process file or a cwd override, a valid process has the cwd C:\ |
| CliValidate.KeyChars | cmd/winc/validate.go:118-125 | the loop over the trimmed key accepts exactly the keys made of letters, digits and underscores |
| CliValidate.EnvValidMeans | cmd/winc/validate.go:113-127 | an entry is valid exactly when it holds '=' and the text before the first '=', trimmed, is made of letters, digits and underscores |
| CliValidate.IdentifierKeyAccepted | cmd/winc/validate.go:113-127 | any key of letters, digits and underscores, even one starting with a digit, makes `key=value` valid whatever the value |
| CliValidate.ProcessErrorMessage | config/errors.go:41-79 | the command's invalid-JSON error names the file and not the decoder's complaint, and its validation error prints the merged process after "process config is invalid: " |
| CliValidate.ValidateProcess | cmd/winc/validate.go:51-111 | a named process file that is missing or not UTF-8 is refused with the config package's error, and one that is not JSON with an error naming only the file; otherwise the process is the file's (or, without a file, an empty one) merged with the overrides, the cwd taken as given; it is returned exactly when its cwd is absolute, it has arguments and every environment entry is valid, and otherwise refused with an error carrying that merged process, whose (only logged) messages are never empty |
| CliValidate.ProcessMessages | cmd/winc/validate.go:89-101 | no message exactly when the cwd is absolute, there are arguments and every environment entry is valid |
| CliValidate.NoDefaultCwd | cmd/winc/validate.go:51-111 | without a process file or a cwd override, validation fails, because the empty cwd is not absolute |
| CliValidate.ValidateBundle | cmd/winc/validate.go:18-49 | the same file checks in the same order; success exactly when the file parses and no mandatory-field message arises, returning the parsed spec |
| CliValidate.CliMessage | cmd/winc/errors.go:9-33 | the invalid-JSON error names neither the path nor the cause, and the validation error prints the bundle path and no messages |
| Errors.ConfigMessageNamesSubject | container/config/errors.go:7-63 | every bundle and process-file error names in its text the bundle or process config it is about |
| Errors.BundleValidationMessage | container/config/errors.go:65-77 | a bundle validation error is a header naming the bundle, then each message on its own tab-indented line in order |
| Errors.ProcessValidationMessage | container/config/errors.go:79-90 | a process validation error is its fixed header, then each message on its own tab-indented line in order |
| Errors.Cause | container/container.go:510-513 | `errors.Cause` gives back the process-creation error that `Exec` wraps, with the same id and command and no wrapping text, and any other error unchanged; the wrapped message is the wrapping text, ": " and the bare message |
| CmdLine.Repeat | runtime/container/container.go:368 | n copies of the character |
| CmdLine.TrailingBackslashes | runtime/container/container.go:368 | the number of backslashes ending the text: all those positions are backslashes and the one before is not |
| CmdLine.EscapeArg | runtime/container/container.go:368 | the escaped argument is never empty; one without quote, backslash or blank is kept as it is; one with a blank is wrapped in quotes |
| CmdLine.ReadEscaped | runtime/container/container.go:368 | the C runtime reads what the escaping wrote for a text back as that text, up to a trailing run of backslashes that stays pending |
| CmdLine.EscapeArgRoundTrip | runtime/container/container.go:354-372 | every argument, escaped and read back by the Microsoft C runtime rules, is exactly the original, so no argument is split or altered on its way to the process |
| CmdLine.RoundTripQuoted | runtime/container/container.go:368 | an argument with a blank round-trips through its quoted form |
| CmdLine.RoundTripBare | runtime/container/container.go:368 | an argument without a blank round-trips written without quotes |
| CmdLine.ProgramArgs | runtime/container/container.go:354-363 | the arguments keep their number and all but the first are unchanged; the program becomes its cleaned path, with ".exe" added exactly when its base name lacks a three-letter extension |
| CmdLine.EscapeAll | runtime/container/container.go:364-369 | each argument is escaped on its own |
| CmdLine.MakeCmdLineJoins | runtime/container/container.go:354-372 | the command line is the escaped program and arguments joined by single spaces |
| CmdLine.AppendArgsJoins | runtime/container/container.go:364-369 | after the first k arguments the loop has written their escaped forms joined by single spaces |
| CmdLine.EnvEntrySplitsAtFirstEquals | runtime/container/container.go:221-224 | an entry's key is the text before its first '=' and its value all the text after it; an entry with no '=' is a key with the empty value |
| CmdLine.EnvMap | runtime/container/container.go:220-224 | the environment holds exactly the entries' keys, and the last entry's value wins for its key |
| CmdLine.EnvMapLastWins | runtime/container/container.go:220-224 | each key maps to the value of the last entry that has it |
| ContainerManager.OpenWith | container/container.go:322-327 | opening succeeds exactly when the service opens the id, and otherwise returns its error |
| ContainerManager.BundleDir | container/container.go:217-224 | an empty bundle path means the working directory, and only then can the lookup fail; the directory is cleaned |
| ContainerManager.LoadBundle | container/container.go:216-240 | a working-directory error and a bundle validation error are returned as they came; success exactly when the bundle validates, its process validates with no process file, and the directory's base name is the container id; a loaded spec has arguments and only environment entries with '=' |
| ContainerManager.Settle | container/container.go:585-615 | a shutdown or terminate succeeds exactly when the call does or it reports a pending error and the wait then succeeds; a failure is the wait's error for a pending one and the call's own otherwise |
| ContainerManager.WaitStep | container/container.go:587-588 | the wait runs exactly when the call failed with a pending error |
| ContainerManager.Stop | container/container.go:570-580 | a stopped container is only closed and that answer returned; a running one is shut down first and never closed; it is terminated exactly when the shutdown did not settle, and the stop succeeds exactly when either settled |
| ContainerManager.DeleteContainer | container/container.go:564-583 | a properties error is returned before any step; after a successful stop the manager's own state directory is removed, as the very last step, and that answer returned; a failed stop is returned with no removal |
| ContainerManager.TeardownTargetsOwnerState | container/container.go:564-583 | tearing down a sidecar never removes a state directory named after the sidecar, and on success it removes the owner's; a terminate happens only after a shutdown that did not settle |
| ContainerManager.Bringup | container/container.go:192-211 | the start, the pid lookup, the mount for that pid and the state write all must succeed, checked in that order, with a start error or a pid error returned as it came |
| ContainerManager.Create | container/container.go:91-214 | a known id is "already exists" and a lookup error other than not-found is returned, both before loading the bundle; the configuration is built from the loaded spec; the container is torn down again exactly when it was created and a later step failed; success exactly when creation and bring-up both succeed, returning the loaded spec |
| ContainerManager.CreatedStateReadsCreated | container/container.go:91-254 | after a successful create, the state written on disk names the bundle path as given, and reading the status back reports "created" |
| ContainerManager.SidecarIds | container/delete.go:30-34 | the sidecar ids in the order the query returned them |
| ContainerManager.TeardownErrors | container/container.go:308-335 | a pid error ends a pass with that one error; otherwise an unmount error is recorded and the pass goes on to open the container and delete it, recording the first error of those; at most two errors per pass |
| ContainerManager.AllErrorsEmpty | container/delete.go:66-70 | no error is collected exactly when every pass was clean |
| ContainerManager.Delete | container/container.go:283-342 | a properties error is returned, except that with force a not-found container is already deleted; a sidecar query error is returned; otherwise every sidecar and then the container itself is torn down, all the errors are joined, and the delete passes exactly when every pass was clean |
| ContainerManager.Command | container/container.go:506-509 | the command named in the error is "" without arguments, and otherwise the program as rewritten by the command-line builder |
| ContainerManager.Exec | container/container.go:483-517 | an open error is returned; otherwise the process gets the escaped command line, the working directory and user as given, the pipe flag, and an environment over exactly the entries' keys; a creation failure names the container and the command |
| ContainerManager.ExecEnvironmentLastWins | container/container.go:489-493 | each environment variable gets the value of the last entry naming it |
| ContainerManager.Stats | container/container.go:519-538 | an open error returns empty statistics with that error; otherwise the container's statistics are collected |
| ContainerSetup.ScanOptions | container/create.go:140-147 | after the first n options, the loop has seen "ro" exactly when it is among them, and likewise "rw" |
| ContainerSetup.ParseMountOptions | container/container.go:260-281 | both "ro" and "rw" is an invalid-mount-options error, and only that; otherwise the mount is read-only exactly when "rw" is absent |
| ContainerSetup.DestToWindowsPath | container/container.go:617-623 | the result starts with the path's own volume, or C: when it has none, and is never shorter than a drive root |
| ContainerSetup.DestOnSystemDrive | container/create.go:161-167 | a destination "/bar" lands at "C:\bar" |
| ContainerSetup.DestToWindowsPathIdempotent | container/container.go:617-623 | a rooted destination is in final form after one conversion |
| ContainerSetup.FirstUnusable | container/container.go:122-135 | the first mount that stops the loop, all before it usable |
| ContainerSetup.MapMounts | container/container.go:121-142 | the loop fails exactly when some mount's source cannot be looked at or is a directory with both "ro" and "rw", with the first such error; otherwise every directory source becomes one mapped directory, in order, with its destination as a Windows path and read-only unless "rw"; other sources are skipped |
| ContainerSetup.LayerNames | container/container.go:108-109 | each layer folder is looked up by its base name |
| ContainerSetup.FirstUnnamed | container/container.go:108-113 | the first layer name without a GUID, all before it found |
| ContainerSetup.Layers | container/container.go:107-119 | the loop fails exactly when some name has no GUID, with the first lookup error; otherwise one layer per folder, pairing its name's GUID with the folder |
| ContainerSetup.SpecLayers | container/container.go:107-119 | the layers succeed exactly when every folder's base name has a GUID, then one layer per folder in order; otherwise the first failing lookup's error |
| ContainerSetup.MemoryInMBRoundsDown | container/container.go:157-158 | the memory limit is the largest whole number of mebibytes within the requested bytes |
| ContainerSetup.BuildConfig | container/container.go:105-179 | layer errors come first, then mount errors; a success carries those layers and mapped directories, the host name, the volume path, the memory limit in whole mebibytes (0 when unset) and the CPU shares (0 when unset); with no shared container there is no owner or endpoint; with one, its endpoint lookup error is returned, and otherwise the shared container is both the network container and the owner, with its one endpoint |
| ContainerState.Initialize | container/state/state.go:46-53 | a directory error is returned with nothing written; otherwise the state written holds only the bundle, with no pid and no failed exec, and is valid |
| ContainerState.SetRunning | container/state/state.go:95-112 | an uninitialized manager is refused with "manager has not been initialized", then a read error and a start-time error are returned, all with nothing written; otherwise the stored state is written back with the pid and the start time reported for the pid taken as 32 bits |
| ContainerState.SetExecFailed | container/state/state.go:114-127 | the same refusals; otherwise the stored state is written back with only the exec-failed flag raised |
| ContainerState.FirstDecisive | container/state/state.go:194-205 | the first listed process carrying the program's pid whose start time cannot be read or equals the recorded one, none before it doing so |
| ContainerState.UserProgramStatus | container/state/state.go:170-208 | an invalid state panics; a failed exec is "exited"; no pid is "created"; an open error is returned; with a process list, the status is "running" exactly when the first decisive process carries the program's pid with the recorded start time |
| ContainerState.Get | container/state/state.go:55-93 | an uninitialized manager is refused; a failed property query panics; a read error is returned; a success names the id and the stored bundle, is "stopped" exactly when the container is stopped, and carries the container's pid; a stopped container whose pid is found always reads "stopped" |
| ContainerState.UserProgramNeverStopped | container/state/state.go:170-208 | the user program's status is never "stopped" |
| ContainerState.WritersKeepStatusReadable | container/state/state.go:46-127 | over a valid stored state, every state the writers hand on is valid or marks a failed exec, so reading the status later does not panic |
| ContainerStats.Nanoseconds | container/stats.go:34-36 | the nanosecond count is below 2^64 and equal to the ticks times 100 modulo 2^64 |
| ContainerStats.NanosecondsExactBelowLimit | container/stats.go:34-36 | up to the largest tick count that fits, the conversion is exact and can be undone; one tick more wraps to a value below 100 |
| ContainerStats.Collect | container/stats/stats.go:29-43 | a statistics error is returned with the zero value; otherwise the memory is the committed bytes and the three CPU times are the tick counts in nanoseconds |
| ContainerStats.CollectInvertible | container/stats.go:20-39 | every reported field fits in 64 bits, and tick counts small enough not to wrap are recovered by dividing by 100 |
| ContainerStatus.UserProgramStatus | container/container.go:383-421 | a failed exec is "exited" even in an invalid record; an invalid record is an error naming the pid and the start time; any status reported is "exited", "created" or "running" |
| ContainerStatus.StatusReadersAgree | container/container.go:383-421 | on every valid record this reader and the state manager's agree; on an invalid one the state manager panics, while this reader succeeds exactly for a failed exec |
| ContainerStatus.StateOf | container/container.go:344-381 | a properties error and a read error are returned as they came; a success names the id and the stored bundle, carries the container's pid, is "stopped" exactly when the container is stopped, and otherwise is the program's status |
| ContainerStatus.ManagedState | container/state.go:10-28 | it panics exactly when the state manager does and returns its errors; a success is the state manager's state with the container's pid, and a pid lookup that fails reads "container not found: id" |
| ContainerStatus.RecordLaunch | container/container.go:443-481 | a failed exec, or a start time that cannot be read, records a failed exec with the pid seen so far and returns that error; otherwise the pid and its start time are recorded and the write decides the result; the bundle is always kept |
| ContainerStatus.RecordLaunchReadable | container/container.go:443-481 | for a non-zero pid and a real start time, every record written is valid or marks a failed exec |
| ContainerStatus.RunBundleExecs | container/container.go:438-453 | what runs is the process of the bundle loaded again, and a load error is returned as it came |
| ContainerStatus.StartFrom | container/container.go:428-481 | a state error is returned; anything but "created" is refused with "cannot start a container in the s state"; a bundle or exec failure is handled as the launch record says; a success records the program's pid with no failed exec |
| ContainerStatus.LaunchManaged | container/start.go:9-35 | it panics exactly when reading the state does; a state error or a status other than "created" stops with nothing written; a running program is the loaded bundle's process run without pipes; a failed exec records a failed exec and fails |
| ContainerStatus.LaunchManagedWithoutPipes | container/start.go:29-35 | the process handed to the host for a created container is configured without I/O pipes, and the program runs, with the created pid, exactly when the host creates that process |
| ContainerStatus.RecordStartAsWritten | container/start.go:38-52 | a start time that cannot be read writes the pid with the zero start time and no failed exec; otherwise the pid and its start time are written |
| ContainerStatus.RecordStartAsWrittenBreaksStatus | container/start.go:46-49 | the record written after a start time that cannot be read is invalid and not a failed exec, so every later status query of the running container panics |
| ContainerStatus.RecordStart | container/start.go:38-52 | a start time that cannot be read is recorded as a failed exec through the state manager and its error returned unless that write failed; otherwise the pid and its start time are written; a pass always had a start time |
| ContainerStatus.RecordStartKeepsStatusReadable | container/start.go:38-52 | over a valid stored state, every record the corrected start writes is valid and its status reads without panicking, and a start time that cannot be read reads as "exited" |
| ContainerStatus.StartManagedAsWritten | container/start.go:9-53 | start through the state manager as written: the launch, then the as-written record |
| ContainerStatus.StartManaged | container/start.go:9-53 | it panics exactly when the launch does; a stopped launch returns what it saved; a successful start records the launched pid with no failed exec |
| ContainerStatus.StartVersionsDifferOnlyOnStartTime | container/start.go:9-53 | the as-written and the corrected start agree unless the start time cannot be read |
| ProcessList.SelectOldest | container/state/process.go:21-28 | no choice exactly when no listed process is a `wininit.exe` created before now; otherwise the choice is the oldest such process, the first among ties |
| ProcessList.OldestUnique | container/state/process.go:21-28 | at most one position meets the selection rule, so the reported process is determined by the list |
| ProcessList.OldestWininitPid | container/state/process.go:21-30 | the pid is the oldest qualifying `wininit.exe`'s, or 0 when none qualifies |
| ProcessList.ContainerPid | container/state/process.go:9-31 | an open or list error gives -1 and the error; otherwise the pid is never negative, is 0 without any `wininit.exe`, and is the oldest one's otherwise |
| Retry.Settle | network/endpoint/endpoint.go:250-257 | the first attempt that succeeds or fails with a lasting error, every earlier one failing transiently |
| Retry.Loop | network/endpoint/endpoint.go:247-264 | between one and the limit of attempts; the result is the last attempt's; every earlier attempt failed transiently; a transient failure is returned only after the limit is spent |
| Retry.LoopSucceedsIff | network/endpoint/endpoint.go:247-264 | the loop succeeds exactly when some attempt within the limit succeeds with every earlier one failing transiently |
| Runtime.Create | runtime/runtime.go:99-120 | a spec error stops before any container is made; success needs the spec, the container and the state; the container is deleted again exactly when the state cannot be initialized, and then that error is returned |
| Runtime.UnmountStep | runtime/runtime.go:131-148 | the volume is unmounted exactly when the state reads with a non-zero pid; a read error or an unmount error is collected, nothing else |
| Runtime.Teardown | runtime/runtime.go:129-158 | the state is read first and the state and then the container are always deleted last; an unmount happens exactly for a recorded non-zero pid; no error is collected exactly when every step succeeds |
| Runtime.Delete | runtime/runtime.go:122-165 | a container not found ends the command at once, quietly only when forced; otherwise every teardown step runs and all their errors are joined; it succeeds exactly when forced on a missing container or when every step does |
| Runtime.ExecFailed | runtime/runtime.go:250-260 | the failure is recorded in the state exactly when the process could not be created |
| Runtime.Record | runtime/runtime.go:263-274 | the pid is recorded first; the volume is mounted exactly when that succeeds; the command succeeds exactly when recording, mounting and the pid file do, and otherwise returns the first of their errors |
| Runtime.Start | runtime/runtime.go:320-363 | a read error, or a container not in the "created" status, ends it after the read alone; the process is created without I/O pipes exactly when the status is "created" and the bundle's spec loads; a failure is recorded exactly when that process could not be created, and then the error returned is the bare process-creation error `errors.Cause` finds, while any other exec error is returned as it came; success needs all of these |
| Runtime.Exec | runtime/runtime.go:194-227 | an invalid process or an exec error exits 1 with that error; no failure is ever recorded in the state; I/O is attached exactly when not detached and the exec and pid file succeed, and then the exit code and error are the attached process's; detached success exits 0 |
| Runtime.Launch | runtime/runtime.go:229-274 | a failed create is returned as it came; success needs the create, the exec with pipes exactly when attached, and the recording; a failure is recorded exactly when the process could not be created, and then the bare process-creation error `errors.Cause` finds is returned, while any other exec error is returned as it came |
| Runtime.ExecError | runtime/runtime.go:250-259 | the process-creation error is returned without the cleaned HCS text that `Exec` wrapped around it, keeping its id and command, and the wrapped message is that text, ": " and the bare message; any other error is returned as it came |
| Runtime.Run | runtime/runtime.go:229-318 | a launch failure exits 1; detached success exits 0; attached, the process's I/O is followed by the whole teardown, the process's error wins over the teardown's, and a clean process with teardown errors exits 1 with them joined |
| Runtime.RunTeardownIsDelete | runtime/runtime.go:276-315 | the teardown after an attached run makes the same calls as a non-forced delete and, for a clean process, ends the same way, except that a container whose state is not found is still torn down and fails the run |
| Runtime.ExitCodes | runtime/runtime.go:194-318 | run and exec exit 0 only when detached, 1, or with the attached process's code; a failure with another code than 1 is always the attached process's own error |
| Runtime.State | runtime/runtime.go:365-386 | a nil output is refused before the state is read; a read error is returned; otherwise the state is written to the output |
| Runtime.Events | runtime/runtime.go:167-192 | a stats error is returned; without the stats flag nothing is written; with it a nil output is refused, and otherwise the stats are written |
| RuntimeContainer.FirstUnstattable | runtime/container/container.go:117-121 | the index of the first mount whose source cannot be looked at: every mount before it can be, and it cannot |
| RuntimeContainer.WritableMounts | runtime/container/container.go:116-137 | it fails exactly when some mount's source cannot be looked at, with the first such error; otherwise the directories among the mounts become mapped directories in order, each with its Windows destination and never read-only |
| RuntimeContainer.WritableMountsIgnoreOptions | runtime/container/container.go:126-135 | whenever the container manager's option-checking mapping succeeds, this one does too and gives the same directories with read-only cleared; when this one fails, so does that one |
| RuntimeContainer.WritableConfig | runtime/container/container.go:102-174 | a layer error, then a mount error, is returned as it came; a success carries the resolved layers and the writable mapped directories |
| RuntimeContainer.WritableConfigAgrees | runtime/container/container.go:93-174 | whenever the container manager builds a configuration, this one builds the same configuration except that every mapped directory is writable |
| RuntimeContainer.Create | runtime/container/container.go:93-189 | an existing container is refused and any properties error other than not-found is returned; the configuration is built only for a container not found; success needs the container to be created and started; a container that does not start is deleted again and the start error returned |
| RuntimeContainer.DeleteContainer | runtime/container/container.go:293-312 | a properties error is returned; otherwise a stopped container is closed and a running one shut down and, failing that, terminated, exactly as the container manager does; no state directory is removed |
| RuntimeContainer.DeleteContainerKeepsState | runtime/container/container.go:293-312 | where the container manager's delete succeeds this one does too with the same steps minus the final removal of the state directory; where this one fails the two are identical |
| RuntimeContainer.Delete | runtime/container/container.go:277-291 | an open error is returned, except a not-found one when forced, which succeeds; an open container is deleted |
| RuntimeContainer.Stats | runtime/container/container.go:250-275 | it succeeds exactly when the container opens and its statistics and process list are read, and otherwise returns the first error with empty statistics; a success carries the container's figures and the number of its processes |
| RuntimeState.Initialize | runtime/state/state.go:56-63 | a directory error is returned and nothing is written; otherwise the record written holds the bundle, no pid, no start time and no failed exec, and the write decides the result |
| RuntimeState.SetFailure | runtime/state/state.go:69-79 | a read error is returned and nothing is written; otherwise the stored bundle is written back with no pid, no start time and a failed exec |
| RuntimeState.SetSuccess | runtime/state/state.go:81-115 | a read error is returned; a process that cannot be opened, or whose start time cannot be read, records the pid with a failed exec and returns that error; otherwise the pid and its start time are recorded; the bundle is always kept |
| RuntimeState.UserProgramStatus | runtime/state/state.go:152-209 | a failed exec is "stopped"; an invalid record is an error naming the pid and the start time; no pid is "created", and only then; a vanished process is "stopped"; "running" exactly when the process opens, its exit code is read and its start time is the recorded one |
| RuntimeState.GetState | runtime/state/state.go:117-150 | a properties error, then a read error, is returned; a stopped container is "stopped" whatever the record says; a status error is returned; a success names the id and carries the stored bundle and pid |
| RuntimeState.WritersKeepStatusReadable | runtime/state/state.go:56-115 | every record the writers produce can be read back into a status without the invalid-state error, as long as a started process has a non-zero start time |

## Left out

- COM, Win32 and DLL plumbing are not modelled. This covers policy and rule initialisation, BSTR handling and cleanup in `firewall.c`, loading `firewall.dll` and `quota.dll` next to the executable, `OpenProcess`, `GetExitCodeProcess` and the handle calls. Each is an answer passed in.
- JSON encoding and decoding are not modelled. Policies, state files, stats output and bundle files are abstract values, and an undecodable file is an error passed in. The one exception is the port pool's grouped state file, which is modelled, and so is its round trip.
- Sleeps and back-off in the retry and polling loops are dropped. The iteration bounds are kept.
- The time `ContainerPid` compares against is a parameter.
- Logging is not modelled. No logged-only error changes a result.
- File locks on the port pool's state file and every goroutine are not modelled. Process I/O attachment, signals and wait-with-timeout are one answer: the exit code and error of the attached process.
- The runtime, volume and image mounters, the network-interface lookups and the disk usage reader are answers passed in.
- The OCI runtime-tools validator and semantic-version parsing are parameters of `BundleConfig`. They are library code.
- Regular expressions are written out as the one pattern they match (`CmdLine.HasThreeLetterExtension`).
- `unicode.IsLetter`, `unicode.IsDigit` and `strings.TrimSpace` are modelled for ASCII only.
- UNC and device paths are not handled by `WinPath`. The modelled code builds paths from drive letters and relative segments only.
- `hcs.CleanError` is not part of this model. The process-creation answer is the already-cleaned text.
- Where an error's format lives in a file outside this model, the text `Errors.Message` gives is a stand-in that names the type and its fields. `hns.dfy` prints allocator lists the same way, because Go's `%+v` struct format is library code.
- The CLI wiring over urfave/cli is not modelled. The `winc` and `winc-image` argument parsing and the firewall and ACL variants of `winc-network`'s `main` are thin delegates.
- Interface, error-type and delegate files with no decisions are not modelled.
- `FirewallDll.DeleteRule`: its loop has no bound in the source, so the model runs it on fuel. `OutOfFuel` means the loop did not stop within the fuel, and the properties of a stopping run hold for every fuel. `FirewallDll.FailingLookupSpins` shows that an erroring store never stops it.
- `NetworkEndpoint.ApplyMappingsAsWritten`: its contract states only when the as-written code can panic and what it does without mappings. The full behaviour is stated on the corrected `NetworkEndpoint.ApplyMappings`, and `NetworkEndpoint.PollNatReadingsAgree` shows that the two agree whenever every reload succeeds.
- `NetRules.IpToUint` (network/netrules/rules.go:101-104) indexes the result of `ip.To4()`, which is nil for an IPv6 or nil address, so the source panics on such an address. `NetRules.IPv4` holds exactly four octets, so the model has no such address.
- `ContainerManager.Delete`: container/container.go:340 and container/delete.go:69 pass the joined error text to `fmt.Errorf` as its format. A `%` in that text is read as a verb, so `%s` comes out as `%!s(MISSING)`. The model returns the joined text unchanged (`Errors.JoinAll`), which matches the source only when no error message holds a `%`. Go's format parser is library code.
- `BundleConfig.Quoted`: `strconv.Quote` writes any character that `unicode.IsPrint` rejects as an escape. The model escapes the ASCII and C1 control characters exactly as Go does, but keeps every character above U+009F as it is, including the non-printable ones such as U+00AD and U+2028. Go's printability tables are library data.
- The runtime's commands see each collaborator through one answer per kind of call, so every read of the state returns the same value within a command. `ContainerState.Get` is the one command that reads the same thing twice: when the container is not stopped, `Get` first calls `userProgramStatus`, which opens the container and lists its processes (container/state/state.go:183-190). It then calls `ContainerPid`, which opens the container and lists the processes again (container/state/state.go:237-245). Both reads get the same answer, so a container that stops or changes between the two reads is not modelled. No other command reads the same thing twice.

## Findings

| source | as written | input that shows it | evidently intended | confidence | as-written member | corrected member |
|---|---|---|---|---|---|---|
| network/firewall/dll/firewall.c:126-149 | `exists` is a `DWORD`, so the -1 a failing lookup returns reads as non-zero. The loop goes on calling `Remove`, and the `exists == -1` return is dead code | a store whose `Item` lookup fails with anything but not-found on every call | a lookup error ends the delete with 1, as the comment on line 152 (-1 on an error) and the dead `exists == -1` branch intend | not executed | FirewallDll.FailingLookupSpins | FirewallDll.IntendedDeleteStopsOnLookupError |
| network/port_allocator/pool.go:49-51 | `InRange` computes `StartPort + Capacity` in `uint16`, so a range reaching past 65535 wraps. The check then rejects ports that `AcquireOne` itself hands out, because `AcquireOne` also wraps | `Tracker{StartPort: 65530, Capacity: 10}`: port 65531 is the second candidate but is not "in range" | a port is in range exactly when its offset from the start port, modulo 2^16, is below the capacity | not executed | PortPool.InRangeAsWrittenMissesWrappedRange | PortPool.Offset |
| network/endpoint/endpoint.go:189-198 | the polling loop ignores the error of `GetHNSEndpointByID` and reads `allocatedEndpoint.Resources`. After a failed reload the pointer is nil and this panics | mappings present, `UpdateEndpoint` succeeds, the first `GetHNSEndpointByID` fails | a failed reload is returned as an error, as `attachEndpoint` does for the same lookup | not executed | NetworkEndpoint.ApplyMappingsAsWrittenPanics | NetworkEndpoint.ApplyMappings |
| hcs/client.go:183-196 | the final error message calls `.Error()` on the last unprepare, deactivate and destroy errors. An unprepare or deactivate that succeeded leaves a nil error there | three rounds in which unprepare succeeds while deactivate and destroy fail | the message reports the errors that occurred and treats a nil one as absent | not executed | HcsClient.RemoveLayerAsWrittenPanics | HcsClient.RemoveLayer |
| container/start.go:46-49 | when the start time cannot be read, the state is written with the pid but a zero start time. `stateValid` rejects that state, and the next status read panics | a started process whose `GetProcessStartTime` fails | the failure is recorded as a failed exec, as the exec-failure branch does, so the state stays readable | not executed | ContainerStatus.RecordStartAsWrittenBreaksStatus | ContainerStatus.RecordStartKeepsStatusReadable |
| sandbox/sandbox.go:81 | `parentLayers[0]` is indexed without checking that the layer chain is non-empty | a rootfs whose `layerchain.json` is `[]` | an empty chain is reported as an invalid layer chain | not executed | Sandbox.EmptyChainPanics | Sandbox.Create |
| image/volume/limiter.go:22 | the 6144-byte overhead is added in `uint64` and wraps for the largest sizes | a size of at least 2^64 - 6144 | the quota never falls below the requested size | not executed | DiskLimit.OverheadWraps | DiskLimit.ImageSetDiskLimit |
