# A verified model of Jack

Jack is a transactional router daemon: configuration is staged, committed, applied to the kernel, and
rolled back when a step fails. This project models its core in Dafny and proves what that core is
relied on for. Run `dafny verify dfyconfig.toml`.

| file | part of the repository |
|---|---|
| `Basics.dfy` | optional values, repeat-free sequences; `Lists(s, xs)` is how a Go `range` over a map is modelled: any order |
| `Kernel.dfy` | the kernel behind `NetlinkClient`: links, addresses, ports, routes, IP forwarding |
| `Snapshot.dfy`, `RouteRestore.dfy`, `SnapshotManager.dfy` | capturing a snapshot and restoring it, interface by interface and route by route |
| `ConfigPath.dfy`, `ConfigStore.dfy` | get and set along a path; the staged store as shared mutable maps that refine a pure store |
| `TypedStore.dfy` | the same for interfaces and routes: structs copied one level deep, with shared slices |
| `PluginHost.dfy`, `PluginRunner.dfy`, `Apply.dfy` | which configuration every plugin runs, as values over the pure store and on the heap over the shared maps; the apply transaction and its rollback |
| `PluginOrder.dfy`, `WaveLoader.dfy`, `ServiceRegistry.dfy` | dependency sort, loading in waves, the service registry |
| `FirewallConfig.dfy`, `FirewallRules.dfy`, `Nftables.dfy`, `Firewall.dfy`, `FirewallMeaning.dfy` | the firewall compiler, a packet evaluator for nftables, and the proof that the table means the configuration |
| `NetworkManager.dfy` | bringing a bridge to its configuration |
| `RateLimiter.dfy`, `Dhcp.dfy`, `Diff.dfy` | log rate limit and sampling, DHCP pool validation, configuration diff |

The kernel and nft are classes whose requests may be refused. A kernel marked `reliable` refuses only
what its state gives it a reason to refuse. Restoring is proved for a reliable kernel; what happened
before the rollback is arbitrary: forward steps are any sequence of netlink requests.

## What the proofs found

- A failed apply does not put every plugin back. One that it came to before it failed keeps its new
  configuration: its last applied configuration has advanced by the time the rollback reads it
  (`FailedApplyCanMoveAPlugin`). One that it never came to, and for which nothing is recorded, as for
  every plugin after start-up, is given its file, which the commit has overwritten already
  (`RollbackCanMoveAnUntouchedPlugin`). What each plugin ends with is told from the state before the
  call (`FailedApplyLeaves`, `FailedApplyLeavesAlone`). The comment at daemon/server.go:1112 says that
  plugins return to their snapshot state; the code is followed here.
- The record of the last applied configuration outlives a plugin that is disabled (one without a ready
  service, see below). After it is enabled
  again with another configuration, an apply can skip it though it does not run what is due
  (`EnableIsFaithful`, `SkipCanBeUnsound`).
- The second apply of a plugin that is configured only by a file or by defaults is not skipped: the
  entry written by the first hides the disk, and the plugin is handed a nil map
  (`SecondApplyCallsNothing`, `SecondApplyCanHandOverNil`).
- A firewall rule without a source zone passes validation but cannot be built, so that `ApplyConfig`
  fails (`ValidConfigCompiles`). The destination zone of a forwarding and the addresses of a rule are
  not looked at (`DestinationZoneIsIgnored`, `AddressesAreIgnored`), the output policy of a zone is
  never enforced (`OutputPolicyIsIgnored`), and a port forward never decides a packet that arrives on an
  interface of a zone (`PortForwardsDoNotReachZones`).
- A failed build leaves an unfinished table behind, which is the compilation of no configuration with
  zones (`UnfinishedIsNoCompilation`). Rolling back flushes it, but does not flush what a failing
  re-apply leaves: hash and table agree afterwards exactly if one of the two configurations was built,
  or there is no table; on a reliable nft that can be told beforehand (`ApplyOrRollBack`). When they disagree, applying the stored configuration
  again is reported as a success without doing anything (`ApplyAfterFailedRollBack`).
- Setting a field of a route ignores what follows it in the path (`LongRoutePathsAreCut`).
- Unregistering a plugin panics exactly when one of its services is ready (`UnregisterPlugin`).
- A missing route does not come back if its device is gone, or is still down because routes are
  restored before links, or if its slot is wanted for another (`RouteRollbackIsExact`,
  `UncarriedIsLost`); a bridge
  recorded without ports keeps ports it has gained meanwhile (`PortlessBridgeRestored`).
- With a repeated name in a bridge's port list an actual port can be overlooked (`RepeatsHideAPort`),
  and the gateway of a bridge that otherwise matches is not looked at (`GatewayIsSet`,
  `GatewayCanBeMissed`). Neither is whether the device is a bridge, or up (`AppliedIsABridgeUp`,
  `AnythingCanPassForABridge`).
- The range validator of the DHCP provider alone lets one interface promise more addresses than its
  network has (`SecondValidatorAloneOverAllocates`): no host is promised twice exactly if the pools
  of the interface are apart (`LeasesAreHosts`), which is what the overlap check decides.

## Model

| member | source | states |
|---|---|---|
| Kernel.Kernel.LinkDel | system/interfaces.go:26-50 | a deletion frees exactly the ports of the deleted link and drops exactly the routes through it; kernel invariants hold after every request |
| Kernel.DeletionInPlainTerms | system/interfaces.go:26-50 | after a deletion every other link is as before but for the ports of the deleted one, which are free, and every other route is there |
| Kernel.AdditionInPlainTerms | system/interfaces.go:26-50 | a route can be added exactly if its link is up, or it names none but a gateway, and no route has its destination, metric and table |
| Kernel.Kernel.LinkSetMaster | system/interfaces.go:26-50 | a port moves to the bridge and thereby leaves any other; refused unless both links live and only the second is a bridge |
| Kernel.JoiningInPlainTerms | system/interfaces.go:26-50 | a port can join exactly if both links are still the ones looked up and only the second is a bridge |
| Snapshot.GetBridgePorts | system/snapshot_manager.go:180-203 | lists the ports of the bridge, each once; also system/network_manager.go:450-470 |
| SnapshotManager.SnapshotManager.CaptureInterfaceState | system/snapshot_manager.go:113-177 | records type, MTU, up flag, address set and, for a bridge, port set of the link |
| SnapshotManager.SnapshotManager.CaptureSystemSnapshot | system/snapshot_manager.go:35-110 | records every link but the loopback, every route by key, and the forwarding switch, and nothing else |
| Snapshot.CapturesLinkByLink | system/snapshot_manager.go:35-73 | a capture lists every link but "lo", with type, MTU, up flag, addresses and, for bridges alone, the links whose master it is |
| SnapshotManager.SnapshotManager.CaptureRoutes | system/snapshot_manager.go:74-101 | the recorded keys are exactly the keys of the routes present |
| Snapshot.CapturedIsWellFormed | system/snapshot_manager.go:113-177 | a captured snapshot is keyed by name and lists each port for one bridge only, which is what restoring relies on |
| SnapshotManager.SnapshotManager.RestoreIPAddresses | system/snapshot_manager.go:372-426 | the address set of the link ends as the recorded one, whatever it was; nothing else changes |
| SnapshotManager.SnapshotManager.RestoreBridgePorts | system/snapshot_manager.go:429-469 | current ports not recorded become free, recorded ones that can join belong to the bridge, other links keep their master |
| SnapshotManager.SnapshotManager.RestoreInterfaceState | system/snapshot_manager.go:317-369 | with a listing older than the deletions: MTU, up flag and addresses of one link are restored, then its ports if any are recorded |
| SnapshotManager.SnapshotManager.RollbackInterfaces | system/snapshot_manager.go:268-314 | with listings read beforehand and both maps visited in any order, the links end as the order-free function RestoredLinks says |
| SnapshotManager.SnapshotManager.RemoveCreatedInterfaces | system/snapshot_manager.go:279-297 | exactly the links absent from the snapshot are gone, with the routes through them; the loopback stays |
| Snapshot.RestoreIsOrderIndependent | system/snapshot_manager.go:299-311 | restoring one by one gives the same links for every order of the snapshot map, ports that moved between bridges included |
| Snapshot.PartialStep | system/snapshot_manager.go:299-311 | invariant of the restore loop: with some interfaces restored, each port is where the last claim on it put it |
| Snapshot.DeleteOneMore | system/snapshot_manager.go:285-297 | deleting one more unknown link from the partial result is the next partial result, for links and routes |
| Snapshot.RestoredAttributes | system/snapshot_manager.go:317-369 | MTU, up flag and addresses of every restored interface equal the record, its identity is kept, and an unknown link is gone |
| Snapshot.RestoredPorts | system/snapshot_manager.go:361-366 | a surviving bridge recorded with ports ends with exactly the recorded ports that still exist |
| Snapshot.PortlessBridgeRestored | system/snapshot_manager.go:361-366 | a bridge recorded without ports has none after the rollback if and only if every port it gained is unknown or recorded for another bridge |
| Snapshot.RestoreAfterCaptureIsIdentity | system/snapshot_manager.go:207-251 | rolling back straight after capturing changes no link |
| Snapshot.RestoreUndoesAnything | daemon/server.go:897-1071 | from any later state, every captured link still present has its captured MTU, up flag and addresses, and every other link but the loopback is gone |
| Snapshot.PortsComeBack | system/snapshot_manager.go:429-469 | every surviving bridge that had ports when captured has those of them that still exist, and no others, however ports moved |
| Snapshot.RestoredValid | system/snapshot_manager.go:268-314 | restored links satisfy the kernel's invariants: masters are bridges, bridges are no ports, indices are unique |
| Snapshot.RestoredLinkByLink | system/snapshot_manager.go:268-369 | which links are left, with which MTU, up flag and addresses, and which links are ports of a bridge recorded with ports |
| SnapshotManager.SnapshotManager.SnapshotRoutesMatch | system/snapshot_manager.go:580-619 | true exactly if destination, gateway, device name, metric and table agree |
| RouteRestore.KeyOfRecord | system/snapshot_manager.go:580-619 | what it means for a route to answer to a record: destination, gateway, metric and table, and the device by name, or none |
| SnapshotManager.SnapshotManager.RollbackRoutes | system/snapshot_manager.go:484-557 | a route of the kernel (protocol 2) or of link scope (253) stays; any other route with a device stays exactly if a record names its destination, gateway, device, metric and table; what is new is made from a record; all as relation RoutesRolledBack says |
| RouteRestore.RolledBackRouteByRoute | system/snapshot_manager.go:484-557 | the same of every result the relation allows, route by route, with the remaining case of a route without a device |
| RouteRestore.RolledBackStep | system/snapshot_manager.go:527-554 | invariant of the add loop: each record processed so far is in the table or was refused for its slot |
| RouteRestore.RouteRollbackIsExact | system/snapshot_manager.go:484-557 | the final keys are the snapshot's keys plus those of protected routes if and only if every route to be added again has its device there and up, or names a gateway only, and nothing else wants its slot |
| RouteRestore.UncarriedIsLost | system/snapshot_manager.go:213-231 | a missing route whose device is gone or down is not in the table after the routes are rolled back |
| RouteRestore.DevicelessIsLost | system/snapshot_manager.go:535-550 | a missing route whose recorded device is gone is not in the table afterwards under its key |
| RouteRestore.RouteRollbackAfterCaptureIsIdentity | system/snapshot_manager.go:484-557 | rolling routes back straight after capturing leaves the same routes |
| SnapshotManager.SnapshotManager.RestoreSnapshot | system/snapshot_manager.go:207-251 | the scope decides which of routes, interfaces and forwarding are restored, in this order, each as its own relation says |
| RouteRestore.FullRollbackRestoresRoutes | daemon/server.go:1045-1071 | scope "all": after routes and then interfaces are restored, the keys are exactly the captured ones and those of protected routes whose links survive, if and only if every route to be added again can return, whatever happened since the capture |
| RouteRestore.KeySurvives | system/snapshot_manager.go:207-251 | deleting unknown links afterwards does not change the key of a route through a surviving link |
| Apply.Server.ApplyPluginConfigs | daemon/server.go:968-1051 | the plugin loop over the shared maps of the registry refines the function ApplyPlugins: skip the unchanged, stop at the first refusal |
| Apply.Server.ApplyPluginConfig | daemon/server.go:1009-1051 | one plugin: nothing if its configuration equals the last applied one, else one call and its record, or a broken plugin |
| Apply.Server.RollbackPluginConfigs | daemon/server.go:1113-1155 | in any order of the plugins, each ends at its last applied configuration, else its file, else stopped |
| Apply.Server.Undo | daemon/server.go:929-937 | restoring a scope brings back forwarding, attributes and ports of the links the snapshot was taken from, whatever happened since |
| Apply.Server.ExecuteApplyWithRollback | daemon/server.go:897-1110 | each failure outcome exactly if its step is the first to fail: an interface, a plugin that is due and refuses, the routes; Applied exactly if none does; after a failure forwarding, MTU, up flag, addresses and bridge ports are as captured, new links are gone; routes follow the scope |
| Apply.Server.CaptureAndApply | daemon/server.go:846-893 | a snapshot of the state before the call, then the steps: each outcome exactly if its step is the first to fail, and what is undone is relative to that snapshot |
| Apply.Server.HandleApply | daemon/server.go:846-893 | for every caller: the outcome is Applied exactly if every interface, every plugin that is due and the routes succeed, and each other outcome exactly if its step is the first to fail; unless Applied, forwarding, attributes and ports are as before the call and every link still there when the rollback began is still there; after a route failure the routes are the captured and the protected ones if and only if the missing ones can return, after other failures only those through deleted links are gone; which configuration each plugin runs, and that the records stay true |
| PluginHost.ApplyKeepsFaithful | daemon/server.go:1009-1042 | a successful apply keeps "a plugin with a last applied configuration runs it" |
| PluginHost.RollbackIsFaithful | daemon/server.go:1113-1155 | a rollback establishes that invariant if and only if no plugin refuses its own last applied configuration |
| PluginHost.StepKeepsFaithful | daemon/state.go:57-262 | every step (load, start, enable, disable, set, commit, revert, apply, failed apply, rollback) keeps it |
| PluginHost.EveryRunIsFaithful | daemon/state.go:251-305 | it holds after every run, so skipping a plugin whose configuration equals its last applied one is sound; and which plugins are registered then |
| PluginHost.EnableIsFaithful | daemon/server.go:1549-1644 | enabling a plugin keeps the records true if and only if there is none for it, or it takes from disk what is recorded |
| PluginHost.SkipCanBeUnsound | daemon/server.go:1647-1717 | for every plugin: a run of commits, disabling and enabling after which nothing is due but it runs another configuration |
| PluginHost.ApplyReachesTargets | daemon/server.go:968-1042 | after a successful apply every plugin in the order runs, and has recorded, what its configuration resolved to before |
| PluginHost.SecondApplyCallsNothing | daemon/server.go:981-1042 | a second apply calls no plugin if and only if no plugin took its configuration from disk past an empty registry |
| PluginHost.SecondApplyCanHandOverNil | daemon/server.go:981-1007 | a concrete run in which the second apply hands a plugin the nil map |
| PluginHost.FailedApplyCalls | daemon/server.go:1009-1042 | the last call of a failed apply is refused; the calls before it are exactly to the plugins the apply comes to |
| PluginHost.ApplyMoves | daemon/server.go:1026-1042 | the last applied configuration of a plugin moves, to the one that was due, if and only if the apply comes to it: it is due, and no plugin up to it is due and refuses |
| PluginHost.ApplyFails | daemon/server.go:1026-1037 | an apply succeeds if and only if no plugin of the order is due and refuses |
| PluginHost.FailedApplyLeaves | daemon/server.go:1113-1155 | after failure and rollback a plugin the apply came to runs what was due, any other what it is rolled back to, and one that refuses is broken |
| PluginHost.FailedApplyLeavesAlone | daemon/server.go:1113-1155 | a plugin that refuses nothing runs what it ran before if and only if: the apply came to it, nothing was recorded and it ran what was due; or the apply did not, and something was recorded or it ran what its file says |
| PluginHost.RollbackCanMoveAnUntouchedPlugin | daemon/server.go:1139-1151 | a concrete failed apply after start-up that rolls a plugin forward it never came to |
| PluginHost.FailedApplyCanMoveAPlugin | daemon/server.go:1040-1042 | a concrete failed apply after which a plugin keeps its new configuration |
| ConfigPath.SetSucceeds | daemon/path.go:125-149 | a set succeeds if and only if the path is not empty and every proper prefix leads to a map |
| ConfigPath.GetGoesOn | daemon/path.go:152-176 | a get goes one key further at a time: into a map by its key, or not at all if the key is missing, and no further than a value that is no map |
| ConfigPath.GetAtOrBelowSet | daemon/path.go:125-176 | after a set at p, get at p gives the value, and below p what get finds inside the value: itself when that is no map |
| ConfigPath.GetBesideSet | daemon/path.go:125-176 | get at any path incomparable with p is unchanged |
| ConfigPath.GetAboveSet | daemon/path.go:125-176 | get above p gives the old map with the rest of the path set in it |
| ConfigPath.SetOverwrites | daemon/path.go:125-149 | a second set at the same path wins and succeeds exactly when the first does |
| ConfigPath.SetsCommute | daemon/path.go:125-149 | sets at incomparable paths commute, failures included |
| ConfigStore.Node.SetGenericValue | daemon/path.go:125-149 | in place, on maps with identity: the view becomes that of the pure set, and a failing walk changes no field of any map |
| ConfigStore.Node.ReplaceAll | daemon/path.go:63-85 | setting at the root copies the entries into the existing map, which keeps its identity |
| ConfigStore.Node.DeepCopy | daemon/server.go:1480-1499 | the copy has the same value and shares no map with the original |
| ConfigStore.ConfigsEqual | daemon/state.go:279-305 | equal exactly if both are absent, or both are there and stand for the same value |
| ConfigStore.SetValue | daemon/path.go:39-88 | root replacement or walk, by the path; in place; a failure changes nothing |
| ConfigStore.State.LoadCommitted | daemon/state.go:57-70 | sets the committed configuration of one type, or none for a nil map, and clears what is pending for it |
| ConfigStore.State.SetLastApplied | daemon/state.go:251-262 | records a map, which may be the committed one, or a nil map as last applied for one type; pending maps stay apart from it |
| PluginRunner.Runner.LoadPlugin | daemon/server.go:332-372 | when the daemon starts, the file, else the defaults, else nothing is committed and applied but not recorded; the records stay true |
| PluginRunner.Runner.EnablePlugin | daemon/server.go:1596-1625 | the file or the defaults are applied and the store is not told; the records stay true exactly as EnableIsFaithful says |
| PluginRunner.Runner.DisablePlugin | daemon/server.go:1691-1701 | the plugin is gone, its record stays |
| PluginRunner.Runner.DueConfig | daemon/server.go:981-1020 | whether the plugin has to be called, compared by JSON text, and with which map: the committed map itself or nil if the registry knows the plugin, else a fresh map from the file or the defaults |
| PluginRunner.Runner.Call | daemon/server.go:1026-1042 | the plugin gets the JSON text; the very map it was called with becomes the last applied entry of the registry, and stays apart from every pending map |
| PluginRunner.Runner.Set | daemon/server.go:1293-1356 | setting a value in place keeps every plugin running what is recorded for it: staged maps are shared with no record |
| PluginRunner.Runner.Commit | daemon/server.go:767-830 | committing moves the pending maps and writes them to their files; records and plugins stay as they are |
| PluginRunner.Runner.Revert | daemon/server.go:832-844 | the same for reverting |
| PluginRunner.Runner.RollBack | daemon/server.go:1113-1155 | one plugin ends at its last applied configuration, else its file, else stopped |
| ConfigStore.State.CommitPending | daemon/state.go:203-221 | the pending maps become the committed ones without a copy; the store refines the pure commit; true exactly if anything was pending |
| ConfigStore.State.RevertPending | daemon/state.go:224-234 | every pending configuration is dropped: the pure revert |
| ConfigStore.State.HandleSet | daemon/server.go:1293-1356 | succeeds if and only if the type has a configuration, pending or committed, and the path leads into a map of it (an empty path: the value is a map); then only the pending configuration of that type changes, as the pure set says; a failing set changes nothing in the registry or any map |
| ConfigStore.EditInPlace | daemon/server.go:1318-1350 | editing a pending map in place leaves the view of all other configurations alone, since no map is shared |
| ConfigStore.State.EditCopy | daemon/server.go:1318-1350 | the first edit after a commit works on a deep copy; committed and last applied values stay as they are |
| ConfigStore.State.SetPending | daemon/state.go:188-200 | becomes the pending configuration of its type, known before or not, unless it is already; nothing else changes |
| ConfigStore.SetStagesOneValue | daemon/server.go:1293-1356 | a set changes no committed and no last applied configuration and no other type; a get at the path finds the new value in what is pending, a get at an incomparable path what it found before |
| ConfigStore.SetIsPossible | daemon/server.go:1293-1350 | the pure set succeeds under exactly that condition |
| ConfigStore.RevertUndoesEdits | daemon/state.go:224-234 | revert undoes any number of sets |
| ConfigStore.CommitKeepsCurrent | daemon/state.go:203-221 | a commit changes nothing that a get sees |
| ConfigStore.EditsCommute | daemon/server.go:1293-1356 | sets of different types, or at incomparable paths, commute, failures included |
| TypedStore.Config.DeepCopy | daemon/server.go:1451-1476 | a new object with the same structs, whose slices are those of the original |
| TypedStore.Config.SetValue | daemon/path.go:178-238 | succeeds exactly as PathsThatLead says; a whole map, one struct or one field is replaced; a failure changes nothing; also daemon/path.go:316-427 |
| TypedStore.TypedState.HandleSet | daemon/server.go:1293-1356 | for interfaces and routes: succeeds exactly if there is a configuration and the path leads somewhere in it; what is pending takes the set, the committed configuration stands for what it stood for although it shares slices with the copy; a failing set changes nothing |
| TypedStore.TypedState.Commit | daemon/state.go:203-221 | the pending object becomes the committed one and stands for the same |
| TypedStore.TypedState.Revert | daemon/state.go:224-234 | nothing is pending, the committed configuration is as it was |
| TypedStore.SetViews | daemon/navigator.go:59-87 | setting in the structs sets the same in what they stand for |
| TypedStore.GetAfterSet | daemon/path.go:178-261 | a get at the path of a successful set finds what was set |
| TypedStore.GetElsewhere | daemon/path.go:178-261 | a get in another struct, or in another field of a struct that was there, is unaffected |
| TypedStore.PathsThatLead | daemon/path.go:178-261 | exactly when a set and a get lead anywhere: an interface and its field have to be there, nothing lies below a field of an interface, the name of a route cannot be set |
| TypedStore.LongRoutePathsAreCut | daemon/path.go:414-427 | of a path to a route only name and field count |
| PluginOrder.Sorter.Visit | daemon/server.go:131-159 | on any graph: the stack is as before, the plugin is sorted afterwards unless it was on the stack, the order stays an extension of the old one |
| PluginOrder.OrderPlugins | daemon/server.go:101-168 | terminates; every enabled plugin exactly once; a dependency precedes its dependent unless a chain of dependencies leads from it back to the dependent; a topological order if and only if there are no cycles |
| PluginOrder.TopologicalIffAcyclic | daemon/server.go:101-168 | an order that is correct up to cycles is topological if and only if the enabled dependencies are acyclic |
| PluginOrder.AppendKeepsOrder | daemon/server.go:155-157 | finishing a plugin after its dependencies keeps the order correct up to cycles |
| PluginOrder.PathFollowsOrder | daemon/server.go:101-168 | in a topological order every dependency path runs backwards |
| WaveLoader.Loader.CanLoadPlugin | daemon/server.go:269-295 | a plugin can be loaded exactly if it can be started and all services it needs are ready |
| WaveLoader.Loader.LoadSinglePlugin | daemon/server.go:298-382 | registers the plugin and makes its services ready only if it is configured and accepts its configuration |
| WaveLoader.Loader.LoadPlugins | daemon/server.go:177-265 | stops within as many waves as there are enabled plugins; each is loaded at most once and only when its services are ready; loaded is exactly what can be started and has what it needs ready; ready is exactly what the loaded plugins offer that are configured and accept; and no set closed under loading is smaller |
| WaveLoader.BlockedIsLeast | daemon/server.go:236-251 | when everything left over is blocked, the ready set is the least set closed under loading |
| WaveLoader.MadeIsMinimal | daemon/server.go:269-295 | loading in time never makes a service ready outside any closed set |
| WaveLoader.LoadedInPlainTerms | daemon/server.go:177-265 | the same of every complete load in time |
| WaveLoader.OrderOfPluginsIsIrrelevant | daemon/server.go:188-193 | two complete loads in any orders make the same services ready and load the same plugins |
| ServiceRegistry.ServiceRegistry.RegisterPlugin | daemon/service_registry.go:55-84 | registers services up to the first one already provided; what is registered by then stays, the indices agree even after that failure, nothing becomes ready |
| ServiceRegistry.RegisteredInPlainTerms | daemon/service_registry.go:55-84 | all services are registered exactly if they are new and none is repeated; the registered ones belong to the plugin, the others to whom they belonged |
| ServiceRegistry.ServiceRegistry.UnregisterPlugin | daemon/service_registry.go:87-107 | panics if and only if some service of the plugin is ready; else exactly its services disappear and the indices agree |
| ServiceRegistry.ServiceRegistry.MarkServiceReady | daemon/service_registry.go:174-189 | a known service becomes ready and its channel is closed, once; never panics |
| ServiceRegistry.ServiceRegistry.AreServicesReady | daemon/service_registry.go:237-247 | true exactly if every named service is ready |
| ServiceRegistry.AllNew | daemon/service_registry.go:62-76 | the whole registration goes through exactly if the services are new and listed without repetition |
| ServiceRegistry.IndexAdd | daemon/service_registry.go:69-76 | adding a service keeps pluginServices the repeat-free inverse of serviceProviders |
| ServiceRegistry.IndexRemove | daemon/service_registry.go:90-106 | removing a plugin with all its services keeps the inverse |
| FirewallConfig.Validate | plugins/core/firewall/types.go:136-194 | collects no error exactly for a valid configuration: every part valid and every interface in one zone only, once, for every order of the zones |
| FirewallConfig.ValidInPlainTerms | plugins/core/firewall/types.go:136-267 | valid means: zones with names, interfaces and parsed input and forward policies, no interface twice, forwardings between existing zones, valid rules and port forwards |
| FirewallConfig.ValidRuleInPlainTerms | plugins/core/firewall/types.go:234-267 | a rule is valid exactly if its source zone exists or is left out, its target is a policy, its protocol is left out or one of tcp, udp, icmp and icmpv6, and its ports lie in 1 to 65535 in order |
| FirewallConfig.ValidPortForwardInPlainTerms | plugins/core/firewall/types.go:270-296 | a port forward is valid exactly if it names the port it forwards, its ports lie in 1 to 65535 in order, and its protocol is left out, tcp or udp |
| FirewallConfig.FineIsUnique | plugins/core/firewall/types.go:141-162 | the loop with its map of seen interfaces decides uniqueness across and within zones |
| FirewallMeaning.GeneratedMatches | plugins/core/firewall/firewall_rules.go:102-138 | a rule named Allow-Established-Related, or with that and a hyphen as prefix, matches exactly the established packets; every other rule matches exactly by its protocol and ports; the decision is its target |
| FirewallMeaning.AddressesAreIgnored | plugins/core/firewall/firewall_rules.go:102-138 | the generated rule matches what the written rule says if and only if that names no address |
| FirewallMeaning.CustomRulesHit | plugins/core/firewall/firewall.go:305-316 | the first applying rule of a zone is the first matching rule of its chain |
| FirewallMeaning.FirstJump | plugins/core/firewall/firewall.go:160-188 | whatever the order of zones, the first jump a packet of a zone matches leads to that zone's chain, unlogged |
| FirewallMeaning.InputMeaning | plugins/core/firewall/firewall.go:74-131 | an input packet on an interface of a zone gets the target of the zone's first applying rule, else the zone's input policy, and is logged at most once, in the group of that verdict |
| FirewallMeaning.InputInPlainTerms | plugins/core/firewall/firewall.go:74-131 | the same with the first rule and the log groups written out: accepts go to group 101, drops and rejects to group 100, where they are logged |
| FirewallMeaning.AnInputDecisionExists | plugins/core/firewall/types.go:197-208 | the configuration decides every such packet |
| FirewallMeaning.ForwardMeaning | plugins/core/firewall/firewall.go:229-250 | a forwarded packet not established is accepted if its zone forwards anywhere, else gets the forward policy; logged in group 101 if accepted, else 100, where such decisions are logged |
| FirewallMeaning.EstablishedIsForwarded | plugins/core/firewall/firewall.go:435-442 | a forwarded packet of an established connection is accepted without a log, in every zone |
| FirewallMeaning.OutputIsAccepted | plugins/core/firewall/firewall.go:192-227 | every output packet is accepted: nothing jumps to the output chains |
| FirewallMeaning.OutputPolicyIsIgnored | plugins/core/firewall/firewall.go:192-227 | a zone's output policy holds for packets leaving through it if and only if it accepts |
| FirewallMeaning.OutsideZonesIsLetIn | plugins/core/firewall/firewall.go:327-352 | an input packet on an interface of no zone is accepted by the base policy |
| FirewallMeaning.OutsideZonesIsForwarded | plugins/core/firewall/firewall.go:271-295 | so is a forwarded one, with a log entry if and only if accepts are logged and an enabled port forward leads where the packet goes |
| FirewallMeaning.FilterMatches | plugins/core/firewall/firewall_rules.go:77-99 | the filter rule of a port forward matches exactly by its address, its protocol and its inner port, or the outer one where no inner one is given |
| FirewallMeaning.PortForwardMeaning | plugins/core/firewall/firewall.go:271-295 | in the finished table a packet is sent on to the address of the first enabled port forward for its protocol and port, and to its inner port if that is given and differs; it is let be exactly if no enabled one forwards it |
| FirewallMeaning.TranslatedIsLetThrough | plugins/core/firewall/firewall_rules.go:51-99 | every packet that the translation of a port forward can yield is accepted by the filter rule generated beside it |
| FirewallMeaning.MasqueradeMeaning | plugins/core/firewall/firewall.go:252-269 | in the finished table a packet is masqueraded exactly if it leaves through an interface of a masqueraded zone, whatever the order of the zones |
| FirewallMeaning.OrderOfZonesIsIrrelevant | plugins/core/firewall/firewall.go:87-92 | two builds that visited the zones in different orders treat every packet of a zone alike |
| FirewallMeaning.PortForwardsDoNotReachZones | plugins/core/firewall/firewall.go:271-295 | changing the port forwards changes no forward verdict for a packet of a zone |
| FirewallMeaning.DestinationZoneIsIgnored | plugins/core/firewall/firewall.go:229-250 | the verdict is what "source forwards to this destination" says if and only if that forwarding exists, or none from the source does, or its policy accepts anyway |
| FirewallMeaning.ValidConfigCompiles | plugins/core/firewall/types.go:234-267 | a valid configuration can be built if and only if every rule names its source zone |
| FirewallMeaning.LoggingPreservesMeaning | plugins/core/firewall/firewall_rules.go:21-49 | any two logging settings give every packet the same verdict on every hook, whatever orders the two builds visited the zones in |
| FirewallMeaning.LoggingPreservesMeaningInOrder | plugins/core/firewall/firewall_rules.go:21-49 | the same for builds in one order, even where an interface is in several zones |
| Nftables.WalkDecides | plugins/core/firewall/firewall.go:318-325 | rules are tried in order and the first matching verdict decides |
| Nftables.WalkJumps | plugins/core/firewall/firewall.go:160-188 | a jump to a chain that decides is decided by that chain |
| Nftables.WalkReturns | plugins/core/firewall/firewall.go:160-188 | a jump to a chain that decides nothing goes on behind the jump |
| Nftables.WalkIgnoresLogs | plugins/core/firewall/firewall_rules.go:21-49 | chains equal but for their log groups decide alike |
| Firewall.ZoneBuilt | plugins/core/firewall/firewall.go:152-190 | creating a zone's chains and jumps moves the table from one stage of the build to the next, in every chain |
| Firewall.RuleBuilt | plugins/core/firewall/firewall.go:305-316 | so does adding a custom rule |
| Firewall.ForwardBuilt | plugins/core/firewall/firewall.go:229-250 | so does a forwarding, for all interfaces of its source zone |
| Firewall.MasqueradeBuilt | plugins/core/firewall/firewall.go:252-269 | so does a masqueraded zone |
| Firewall.PortForwardBuilt | plugins/core/firewall/firewall.go:271-295 | so does a port forward, in both its chains |
| Firewall.PoliciesBuilt | plugins/core/firewall/firewall.go:192-227 | so do the default policies of a zone, last |
| Firewall.FirewallProvider.ApplyDefaultPolicies | plugins/core/firewall/firewall.go:192-227 | all policies in any order; a failure leaves a zone whose forward chain ends without its policy |
| Firewall.FirewallProvider.CreateAllZones | plugins/core/firewall/firewall.go:87-92 | all zones in any order, against an nft that may refuse |
| Firewall.FirewallProvider.ApplyConfig | plugins/core/firewall/firewall.go:43-141 | skipped only on a matching hash with an existing table; a success leaves a table that is a compilation of the configuration, a failure none or an unfinished one; a reliable nft fails exactly when no compilation exists; if the stored hash has zones, hash and table agree afterwards exactly on success or without a table |
| Firewall.FirewallProvider.Flush | plugins/core/firewall/firewall.go:354-361 | no table, hence a consistent cache, whatever was stored |
| Firewall.FirewallProvider.RollBack | daemon/server.go:1113-1140 | flush, then the previous configuration if there is one; a failure leaves the hash and possibly an unfinished table |
| Firewall.FirewallProvider.ApplyOrRollBack | daemon/server.go:1024-1042 | if the stored hash has zones: hash and table agree afterwards if and only if the configuration or the previous one was built, or there is no table; for a reliable nft and any stored hash the condition is stated on the configurations before the call |
| Firewall.FirewallProvider.ApplyAfterFailedRollBack | plugins/core/firewall/firewall.go:58-67 | after a failed rollback that left a table, applying the stored configuration succeeds without touching that table, which is not its compilation |
| Firewall.FirewallProvider.ApplyAll | plugins/core/firewall/firewall.go:51-77 | with a flush after every failure hash and table agree after any number of applications |
| Firewall.UnfinishedIsNoCompilation | plugins/core/firewall/firewall.go:74-131 | whatever step a build stops at, the table is the compilation of no configuration, except that one without zone chains can be that of a configuration without zones |
| Firewall.GlobalRuleAloneCompiles | plugins/core/firewall/firewall.go:435-442 | a table with the global rule alone is the compilation of exactly the configurations without zones and enabled port forwards |
| Firewall.WithoutPoliciesUnfinished | plugins/core/firewall/firewall.go:120-131 | until the policies are in, the table is unfinished |
| NetworkManager.StringSlicesEqual | system/network_manager.go:663-680 | true exactly for equal length and inclusion of the second in the first |
| NetworkManager.ComparesSetsIffNoRepeats | system/network_manager.go:663-680 | given a repeat-free listing that passes the comparison, the sets are equal if and only if the wanted list repeats nothing |
| NetworkManager.RepeatsHideAPort | system/network_manager.go:663-680 | two lists that pass though an actual port is not wanted |
| NetworkManager.InPlaceUpdate | system/network_manager.go:263-302 | removing and adding by one listing, read first, makes exactly the wanted ports; other links are left alone |
| NetworkManager.FreshBridge | system/network_manager.go:227-261 | a new bridge has exactly the wanted ports, taken from wherever they were |
| NetworkManager.DeleteThenKeep | system/network_manager.go:193-214 | recreating instead of changing the bridge makes no difference to the other links |
| NetworkManager.NetworkManager.UpdateBridgePorts | system/network_manager.go:263-302 | success leaves exactly the wanted ports, and writes if they differed; a reliable kernel lets it succeed exactly if the ports to add can join |
| NetworkManager.NetworkManager.CreateBridge | system/network_manager.go:227-261 | success leaves a new bridge, up, with the MTU and exactly the wanted ports, which are up; on a reliable kernel exactly if the name is free and every port exists and is no bridge |
| NetworkManager.NetworkManager.CheckIPMatches | system/network_manager.go:472-496 | says whether the wanted address is present, or that it cannot be parsed |
| NetworkManager.NetworkManager.BridgeConfigMatches | system/network_manager.go:498-515 | for repeat-free ports: true exactly if MTU and port set are as wanted |
| NetworkManager.NetworkManager.EnsureStaticIP | system/network_manager.go:561-617 | success leaves the wanted address as the only one; other links unchanged; on a reliable kernel it fails only if the address does not parse |
| NetworkManager.NetworkManager.SetDefaultGateway | system/network_manager.go:619-659 | success leaves one default route, through the gateway, with metric 100 where none is given, in table 254; other routes stay whatever fails; on a reliable kernel it fails only for a gateway that does not parse or a link that is down |
| NetworkManager.NetworkManager.Reconcile | system/network_manager.go:182-225 | for a bridge not yet as configured: prepares link and ports, then addresses it; success without a write only if it was configured |
| NetworkManager.NetworkManager.ApplyBridgeInterface | system/network_manager.go:146-225 | for repeat-free ports: success by any branch leaves the device (or the name, where none is given) with its MTU, 1500 where none is given, exactly the wanted ports and the wanted address, as Applied says, and performs no kernel write if and only if it was configured before; on a reliable kernel, DHCP aside, it succeeds exactly if the bridge was configured, or its ports can join, its addressing parses and, if a gateway is wanted, the device is up |
| NetworkManager.AppliedIsConfigured | system/network_manager.go:146-225 | an applied bridge has its MTU, exactly its ports and its address; other links only joined or left |
| NetworkManager.AppliedInPlainTerms | system/network_manager.go:146-225 | the same with the constants written out, and every other link unchanged but for its bridge and, where it joins, being up |
| NetworkManager.ConfiguredInPlainTerms | system/network_manager.go:472-515 | being as configured means: the MTU, 1500 where none is given; as ports exactly the listed names; and for a static address that address among its own |
| NetworkManager.PossibleInPlainTerms | system/network_manager.go:186-302 | what it takes to succeed: missing ports exist and are no bridges, a kept device is a bridge if a port is missing, a new one has a name and is none of its ports; address and gateway parse, and a kept device is up if a gateway is wanted |
| NetworkManager.AppliedOnceIsEnough | system/network_manager.go:169-191 | applying once more changes nothing |
| NetworkManager.AppliedIsABridgeUp | system/network_manager.go:161-211 | after success the device is a bridge, and up, if and only if it was made anew or was so before; without a static address it has the addresses it had, or none if made anew |
| NetworkManager.AnythingCanPassForABridge | system/network_manager.go:498-515 | a physical port that is down counts as a configured bridge without ports |
| NetworkManager.GatewayIsSet | system/network_manager.go:417-431 | after success the default route goes through the gateway if and only if the bridge was not configured before, or the route was there |
| NetworkManager.GatewayCanBeMissed | system/network_manager.go:169-184 | a configured bridge whose new gateway is never set |
| RateLimiter.TokenBucket.Allow | plugins/core/firewall/capture.go:69-91 | the bucket in place is the limiter as a value; refilled when a second has passed, it lets a call pass exactly if it holds a token, or if no rate is set |
| RateLimiter.RateBound | plugins/core/firewall/capture.go:69-91 | over every trace and every interval at most maxPerSec * (whole seconds + 2) calls are allowed |
| RateLimiter.RateBoundIsTight | plugins/core/firewall/capture.go:69-91 | for every rate: twice the rate passes within less than a second, around a refill |
| RateLimiter.RefusedOnlyAtTheRate | plugins/core/firewall/capture.go:69-91 | over every trace: a call is refused only if the full rate has been allowed within the second before it |
| RateLimiter.NoRateNoLimit | plugins/core/firewall/capture.go:70-73 | without a rate every call is allowed |
| RateLimiter.SpendsTokensAndRefills | plugins/core/firewall/capture.go:75-88 | up to any time the calls allowed are covered by the tokens left and the refills that fit |
| RateLimiter.SamplesExactly | plugins/core/firewall/parser.go:106-111 | of n entries exactly n / rate pass the sampler |
| RateLimiter.OfferedIsSampled | plugins/core/firewall/capture.go:215-224 | of the entries a configuration wants logged exactly one in rate reaches the limiter |
| RateLimiter.LogCapture.Process | plugins/core/firewall/capture.go:215-235 | an entry is stored exactly if it is wanted, sampled, allowed and taken by the database; only sampled entries use tokens |
| RateLimiter.LogCapture.ProcessAll | plugins/core/firewall/capture.go:190-236 | over a stream, stored are the entries the database takes of those that pass |
| RateLimiter.PassedAreAllowed | plugins/core/firewall/capture.go:219-230 | as many pass as the limiter allows of the sampled entries |
| Dhcp.Validate | plugins/core/dnsmasq/types.go:162-206 | collects no error exactly if all pools and leases are valid and pools of one interface have disjoint ranges |
| Dhcp.OverlapIsExact | plugins/core/dnsmasq/types.go:183-195 | two ranges meet exactly if both pools have addresses and the comparison of bounds says so |
| Dhcp.ValidateDHCPConfig | plugins/core/dnsmasq/dnsmasq_config.go:25-83 | accepts exactly if pools exist when needed and every pool is within its network |
| Dhcp.LeasesAreHosts | plugins/core/dnsmasq/types.go:172-197 | the pools of an interface promise at least as many leases as hosts, and as many, so that no host is promised twice, if and only if they are pairwise apart |
| Dhcp.PoolsCannotOverAllocate | plugins/core/dnsmasq/dnsmasq_config.go:36-51 | accepted pools of an interface promise at most 254 leases together |
| Dhcp.SecondValidatorAloneOverAllocates | plugins/core/dnsmasq/dnsmasq_config.go:36-51 | two pools within range, not apart, that promise 508 leases |
| Diff.DiffStructs | daemon/diff.go:92-133 | lists each field that differs by more than being empty, once, with both values |
| Diff.DiffInterfaces | daemon/diff.go:58-89 | for every order of the maps, the result lists each added, removed and modified entry exactly once |
| Diff.SameUpToNil | daemon/diff.go:135-151 | in a field of one type, what counts as the same is equal or a nil and an empty slice |
| Diff.DiffThenPatch | daemon/diff.go:58-89 | replaying the entries on the committed configuration, in any order, yields the pending one up to nil and empty slices |
| Diff.EmptyDiffIffSame | daemon/diff.go:58-89 | the diff is empty if and only if the configurations agree up to that |
| Diff.InverseDiffLeadsBack | daemon/diff.go:58-89 | the inverted entries are the diff the other way round and lead back |

## Left out

- Kernel side effects beyond NetlinkClient's requests: whether a gateway can be reached through the addresses of a link, VLAN children of a deleted parent, routes that vanish with an address or a link going down, carrier state. Only IPv4 addresses are listed.
- The forward work of physical, VLAN and other interfaces, of routes and of plugins is any sequence of netlink requests with any outcome; only bridges are modelled as code.
- IP forwarding is a switch, not the text of a sysctl; the nftables text in a snapshot and its restoration (system/snapshot_manager.go:622-647) are not part of this model.
- Snapshot fields for gateway and metric of an interface, which restoring does not read; recreating a deleted interface, which the code does not do (system/snapshot_manager.go:472-481).
- Stored checkpoints: saving, loading, listing and pruning snapshots on disk.
- ConfigStore.State.HandleSet: a JSON array is an opaque leaf, and a value to set comes from a request and shares nothing with the store. Interfaces and routes are in TypedStore.
- TypedStore.TypedState.HandleSet: a JSON null for a whole map of structs, which leaves a nil map behind, is not modelled; type conversions are results given with the value.
- A registry entry is a value in a map rather than an object of its own; locks are not modelled, each operation is one step.
- Apply.Server.ExecuteApplyWithRollback: routes are restored only when the route step fails, as in the code; for the other failures the relation RestoredTo says what happens to them.
- PluginHost.EveryRunIsFaithful: a plugin takes back a configuration it ran before, flushing a plugin works, and plugins are enabled as EnableIsFaithful asks.
- Firewall.FirewallProvider.ApplyOrRollBack: for an unreliable nft, a stored hash of a configuration without zones is left out of the equivalence; UnfinishedIsNoCompilation and GlobalRuleAloneCompiles say what an unfinished table can then be.
- Hashes are collision-free: the stored hash is the configuration itself. Calling nft, rule text and interface wildcards are not modelled; ports, protocols and addresses are parsed values.
- NetworkManager.NetworkManager.ApplyBridgeInterface: a netmask that does not parse is not modelled apart from an address that does not; whether the DHCP client starts is arbitrary, and the addresses it obtains are not modelled.
- Dhcp.Validate: DNS servers, domains, lease times and static leases are flags that say whether they pass.
- Diff.DiffInterfaces: the contents of a pointer or of a list element are compared as one value; diffs of other configuration types are left out.
- Channels are modelled by whether they are closed; waiting on one is left out.
- JSON encoding, command line, sockets, RPC, logging, SQL, observers, LEDs and metrics.
