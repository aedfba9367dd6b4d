# cbdinocluster: a verified model

cbdinocluster provisions Couchbase clusters on Docker, on Capella and under the Kubernetes operator. Most of it talks to
other systems; this project models the parts that make decisions and proves what they promise. Docker, ns_server, Capella,
Kubernetes and the clock are environments that may answer anything, take any time and fail at any step.

| files | subject |
|---|---|
| `Topology`, `ClusterDef`, `Membership`, `RoutingSteps`, `AddRemoveProtocol`, `Promises`, `Modification`, `Examples` | adding and removing Docker nodes while balancers and DNS serve traffic |
| `Reconcile`, `ModifyCluster` | which nodes a changed definition keeps, adds and removes |
| `Firewall`, `TrafficControl`, `NodeTraffic` | traffic policies, the iptables chains they compile to, blocking, allowing and partitioning nodes |
| `RebalanceRetry` | rebalancing with retries under a deadline |
| `ServiceGroups` | comparing Capella service groups with a definition |
| `Radix`, `Uuid`, `Decimal`, `Text`, `MetaCodec` | cluster metadata stored in project names |
| `VersionIdent` | version identifiers and image tags |
| `RemoveAll` | the removal of everything, in three phases |
| `ListFanIn` | listing all deployers at once through a channel |
| `StabilityWindow`, `Paging`, `ClusterListing` | waiting for a stable cluster, paged reads with retries, grouping containers |
| `Options`, `Bags` | missing values; sequences seen as multisets |

Code that changes state step by step is a class or a method with a loop; each such method is proved against a function or
predicate on values, and lemmas say what those mean. Code made of expressions is functions and lemmas.

## How to read the main results

**Safety of a modification.** `World` records every observable routing in `history`: running containers, members, nodes that
wait to join, targets of health-checked balancers (haproxy, "active") and of the others (nginx, "passive"), DNS. There are
five promises: passive targets are members; nodes listed in DNS are members; active targets cover all members; every member
has a container; nodes that wait to join have certificates. `Steady(t)` says that every observation so far kept the promises
`t`. While a rebalance runs, and after it failed, membership may be anything between the two ends; a failed operation may or
may not have taken effect.

A run may start from any listed cluster: nothing is assumed about members, waiting nodes or what is routed where, so an
earlier run may have failed anywhere. `Promises.TermsOf` computes from the start which promises a run keeps;
`Modification.AddRemoveNodes` keeps those at every step, wherever it fails, and a run that succeeds keeps exactly those. It
leaves a state from which the next run may start (`Modification.ListAgain`).

**Rebalancing with retries.** The environment logs every question and its answer, every listing, every rebalance and the end
of its tasks. The log of a run is that of its rounds, one after the other (`RebalanceRetry.SoundRun`), and lemmas read from
it what matters: who was asked before a rebalance is issued, how often and how fast it is repeated, which names are dropped,
and that success rests on a validation pass after the last rebalance.

**What specifications mean.** Where a contract names a function that the modelled code calls too, the result is also stated
in the fields of the inputs and the literals of the source, without that function: in the contracts of the operations
(`Reconcile.IndividualizeGroups`, `RebalanceRetry.CheckClusterIsBalanced`, `TrafficControl.Host.SetTrafficControl`,
`NodeTraffic.BlockNodeTraffic`, `RemoveAll.RemoveAll`, `ServiceGroups.BuildServiceGroups`, `Paging.Client.DoRead`) or in lemmas
beside them (`Modification.EndsMeans`, `Membership.UpdateIsOn`, `StabilityWindow.SettledMeans`,
`VersionIdent.IdentifiedExactly`, `MetaCodec.OursExactly`, `Uuid.ParseIdExactly` and others).

**Where the code does not keep a promise,** the exact condition is proved:

- Passive balancers and DNS, where a cluster has them, list members only if and only if they did before and, once some
  node is removed, every node that stays is a member, or, if nodes are only added, every node is a member or waits to become
  one (`Promises.Followed`). A container that a failed deployment left behind breaks this in every completed change that
  does not remove it (`Promises.AfterFailedDeployment`; `Examples.StrayExample` is a cluster on which the next addition
  completes and does so). Nodes that wait after a failed rebalance do not, if nodes are only added
  (`Promises.AfterFailedAddition`).
- A removed node that did not report its OTP name is not ejected, although its container is removed
  (`Examples.SilentExample`). Every member keeps a container, and active balancers cover the members, if and only if
  everyone who is or waits to be a member stays, is new, or had reported its name (`Promises.Accounted`,
  `Promises.AccountedMeans`); coverage also needs that nodes that wait are covered already when nothing is added
  (`Promises.Awaited`).
- After success the members are the nodes that stay plus the new ones if and only if that holds and everyone who stays was a
  member or waited to become one (`Promises.MembersExactly`). A change without additions and removals succeeds and leaves
  waiting nodes waiting, so it ends with the right members only if nobody waits (`Modification.NobodyWaits`).
- Removing a balancer that is written to afterwards always ends in an error (`RemovesBalancer` in
  `Modification.AddRemoveNodes`, `Examples.RemovedBalancerExample`).
- Blocking and partitioning flush the rules first, so an operation that fails half way may leave a container more open than
  it was, even to everything (`NodeTraffic.StoppedBlockOpens`). It holds a beginning of the compiled chain, which never
  rejects what the policy permits (`NodeTraffic.CutPermits`).
- Allowing all traffic ignores a failed flush. A container then accepts everything if and only if its flush worked or it did
  so before, as it does without iptables (`NodeTraffic.AllowRestores`); otherwise Allow succeeds and packets stay rejected
  (`NodeTraffic.FailedFlushKeepsBlocking`).
- The OUTPUT rules of a mode are never reached (`Firewall.OutputIgnoresMode`), so blocking is stated for INPUT.
- A metadata expiry survives if and only if it is a whole second of a year of at most four digits (`MetaCodec.PrintRoundTrip`);
  a build number survives printing if and only if it is not negative (`VersionIdent.TagRoundTrip`), and no identifier that
  parses has a negative one (`VersionIdent.IdentifiedIsDotted`).

## Model

| member | source | states |
|---|---|---|
| Modification.AddRemoveNodes | deployment/dockerdeploy/deployer_newaddremove.go:605-814 | from any listed cluster, each promise whose condition held at the start is kept at every step of any run, failed or not, and a successful run keeps exactly those; exactly when the run succeeds, that it then routes to and registers exactly the nodes that stay plus the new ones, who the members are; no run writes to DNS where there is none or where a columnar cluster is behind a balancer, otherwise a successful one leaves the records for exactly the final nodes; and that the next run may start |
| Modification.EndsMeans | deployment/dockerdeploy/deployer_newaddremove.go:605-814 | after a successful run exactly the staying containers and one of the right type and version for each lease exist, each registered with its own group entry, and each surviving balancer lists exactly the server and columnar nodes |
| Modification.RunKeepsExactly | deployment/dockerdeploy/deployer_newaddremove.go:605-814 | over a completed run each promise is kept if and only if its condition held at the start |
| Modification.ListAgain | deployment/dockerdeploy/deployer_clusterinfo.go:82-237 | wherever a run ended, listing the cluster again makes it the start of the next |
| Modification.ShiftTraffic | deployment/dockerdeploy/deployer_newaddremove.go:699-758 | routing away and rebalancing keep the promises at every recorded step; exactly when they succeed, and the resulting routing |
| Modification.SettleTraffic | deployment/dockerdeploy/deployer_newaddremove.go:760-806 | removing containers and routing back keep the promises at every recorded step; exactly when they succeed, and the resulting routing |
| Modification.LacksAfterRemoval | deployment/dockerdeploy/deployer_newaddremove.go:783-805 | the last updates miss a balancer container if and only if the run removed a balancer that it still writes to |
| Promises.ReadyAfterRouteAway | deployment/dockerdeploy/deployer_newaddremove.go:699-746 | after the updates that precede the rebalance, every membership it can pass through keeps the promises |
| Promises.AwayExactly | deployment/dockerdeploy/deployer_newaddremove.go:728-746 | routing away from leaving nodes is safe for passive balancers, and for DNS, if and only if every node that stays is a member, or there is none to update |
| Promises.MovedPassiveExactly | deployment/dockerdeploy/deployer_newaddremove.go:770-793 | after an addition, passive balancers list members only if and only if every node was one or waited to become one |
| Promises.MovedListsExactly | deployment/dockerdeploy/deployer_newaddremove.go:777-782 | the same for DNS |
| Promises.MovedCovers | deployment/dockerdeploy/deployer_newaddremove.go:795-805 | after a completed run active balancers cover the members if and only if there is none or every member has a container |
| Promises.MembersExactly | deployment/dockerdeploy/deployer_newaddremove.go:748-768 | when the members after the rebalance are exactly the nodes that stay plus the new ones, and when they are among them |
| Promises.AccountedMeans | deployment/dockerdeploy/deployer_newaddremove.go:748-768 | that condition in terms of nodes: no member loses its container exactly if every removed member had reported its OTP name |
| Promises.MovedRoutesExactly | deployment/dockerdeploy/deployer_newaddremove.go:699-806 | the updates before and after the removal together leave every surviving balancer and the DNS records on exactly the final nodes |
| Promises.AfterCompletedRun | deployment/dockerdeploy/deployer_newaddremove.go:605-814 | after a completed run every promise is kept, except for removed nodes without OTP name |
| Promises.AfterFailedAddition | deployment/dockerdeploy/deployer_newaddremove.go:605-814 | after a failed registration or rebalance, adding more nodes keeps every promise |
| Promises.AfterFailedDeployment | deployment/dockerdeploy/deployer_newaddremove.go:704-793 | a container that is neither a member nor waiting breaks the promise on passive balancers in every change that keeps it |
| Examples.StrayExample | deployment/dockerdeploy/deployer_newaddremove.go:661-793 | a concrete cluster that a failed deployment left behind, on which every addition succeeds unless the environment fails, and then points nginx at a container that is no member |
| Examples.SilentExample | deployment/dockerdeploy/deployer_newaddremove.go:748-768 | a concrete cluster on which removing a node without OTP name succeeds unless the environment fails, and leaves a member without a container that haproxy does not list |
| Examples.RemovedBalancerExample | deployment/dockerdeploy/deployer_newaddremove.go:783-805 | a concrete cluster on which removing the haproxy always ends in an error |
| Promises.EjectedAreLeaving | deployment/dockerdeploy/deployer_newaddremove.go:748-755 | ejecting the OTP names of the leaving nodes ejects nobody else |
| AddRemoveProtocol.SelectInitialNode | deployment/dockerdeploy/deployer_rebalance.go:26-42 | the initial control node is the last cluster node that reported an OTP name and stays; none is found exactly when there is none |
| Promises.ControlMeans | deployment/dockerdeploy/deployer_rebalance.go:26-42 | there is one if and only if some server or columnar node reported a name that no leaving node reported |
| AddRemoveProtocol.PrepareNodes | deployment/dockerdeploy/deployer_newaddremove.go:625-697 | deploys, certifies and registers the new nodes in order, keeping the promises if it stops half way |
| AddRemoveProtocol.RouteAway | deployment/dockerdeploy/deployer_newaddremove.go:699-746 | covers new nodes actively, stops passive and DNS routing to leaving ones, keeping the promises at each recorded update; fails exactly on an environment failure or a missing balancer |
| AddRemoveProtocol.RemoveContainers | deployment/dockerdeploy/deployer_newaddremove.go:760-768 | removes exactly the leaving containers, in order; a failure leaves a prefix of them removed |
| AddRemoveProtocol.RouteBack | deployment/dockerdeploy/deployer_newaddremove.go:770-806 | lists what runs afterwards; fails exactly on an environment failure or a missing balancer |
| AddRemoveProtocol.MembersKeepRunning | deployment/dockerdeploy/deployer_newaddremove.go:760-768 | removing a container that is no member's keeps every member running |
| RoutingSteps.PostRemovalNodes | deployment/dockerdeploy/deployer_newaddremove.go:699-709 | exactly the nodes whose address no leaving node has, in order |
| RoutingSteps.RegisteredAt | deployment/dockerdeploy/deployer_newaddremove.go:661-697 | every new node is registered with the server group and services of its own group entry |
| RoutingSteps.RegisterNodes | deployment/dockerdeploy/deployer_newaddremove.go:690-697 | all new nodes are registered, none before its certificate if the cluster uses them |
| RoutingSteps.ProxyTargets | deployment/dockerdeploy/deployer_lb.go:5-18 | the targets are the addresses of the cluster nodes, in order and no others |
| RoutingSteps.RetargetedAt | deployment/dockerdeploy/deployer_newaddremove.go:718-725 | updating the balancers of one kind points each of them at the targets and leaves the others alone |
| RoutingSteps.UpdatePassiveBalancers | deployment/dockerdeploy/deployer_newaddremove.go:738-745 | safe after each update if only members are listed; fails exactly on an environment failure or a missing container |
| RoutingSteps.UpdateActiveBalancers | deployment/dockerdeploy/deployer_newaddremove.go:718-725 | safe after each update if every member is listed; fails exactly on an environment failure or a missing container |
| RoutingSteps.BuildRecords | deployment/dockerdeploy/deployer_dns.go:18-72 | which records an update writes, and that each lists cluster nodes only |
| RoutingSteps.AddressSurvives | deployment/dockerdeploy/deployer_clusterinfo.go:33-45 | adding and removing nodes other than balancers does not change the address that a cluster answers on |
| Membership.BalancerMeans | deployment/dockerdeploy/deployer_clusterinfo.go:33-45 | a cluster answers on a balancer address if and only if it has a balancer, on that of an active one if there is any |
| Membership.UpdateIsOn | deployment/dockerdeploy/deployer_dns.go:18-72 | an update leaves host records for exactly the cluster nodes unless the cluster is columnar and behind a balancer, and service records on ports 11210 and 11207 for exactly them unless it is columnar |
| Topology.AddressesAreMembers | deployment/dockerdeploy/deployer_lb.go:5-18 | an address is a target if and only if it belongs to a cluster node |
| Topology.AddressesInOrder | deployment/dockerdeploy/deployer_lb.go:5-18 | targets are listed in the order of the nodes: those of server and columnar nodes, and no others |
| Reconcile.MatchesIsKeyEquality | deployment/dockerdeploy/deployer.go:209-222 | a node satisfies an entry if and only if version and multiset of services agree, an equivalence |
| Reconcile.FindMatch | deployment/dockerdeploy/deployer.go:209-226 | finds the first node that satisfies an entry, or there is none |
| Reconcile.Match | deployment/dockerdeploy/deployer.go:203-229 | every node is removed or paired and every entry added or paired, one to one; a node is reused only for an entry of its version and services, the default services where the entry chooses none, that does not force a new node, and none that could be reused is left over; the number reused is the per-key minimum of counts |
| Reconcile.NoMatchingReusesMore | deployment/dockerdeploy/deployer.go:203-229 | no valid one-to-one matching reuses more nodes |
| Reconcile.NothingChanges | deployment/dockerdeploy/deployer.go:203-229 | nothing is added or removed if and only if no entry forces a new node and the keys of nodes and entries agree |
| Reconcile.UnansweredAreRemoved | deployment/dockerdeploy/deployer.go:203-229 | a node that reported no services is always removed |
| Reconcile.IndividualizeGroups | deployment/dockerdeploy/deployer.go:187-196 | the list has as many entries as the positive counts add up to, and every entry as often as the counts of the groups that ask for it add up to |
| Reconcile.IndividualizedAsks | deployment/dockerdeploy/deployer.go:187-196 | the same of the list itself: copies with count one, one for each wanted node |
| Reconcile.KeepClusterNodes | deployment/dockerdeploy/deployer.go:198-201 | utility nodes are never candidates for removal |
| ModifyCluster.RemovedAreSpare | deployment/dockerdeploy/deployer.go:198-229 | removed nodes are cluster nodes, and no reused node is among them |
| ModifyCluster.ModifiedMeets | deployment/dockerdeploy/deployer.go:182-237 | on success the cluster nodes correspond one to one to the entries: a reused node in version and services, a new one in version and registered services and server group |
| ModifyCluster.KnownExactly | deployment/dockerdeploy/deployer.go:182-237 | every removed cluster node was known if and only if every cluster node had answered |
| ModifyCluster.ApplyGroups | deployment/dockerdeploy/deployer.go:182-237 | the reconciliation is optimal, reused and utility nodes run throughout, no balancer is removed, the add/remove run ends as stated, and on success the cluster meets the definition with as many cluster nodes as the counts add up to |
| ModifyCluster.ModifyCluster | deployment/dockerdeploy/deployer.go:154-241 | services chosen for a columnar cluster are rejected and a definition without groups changes nothing, otherwise as above: success leaves as many cluster nodes as the counts add up to |
| ModifyCluster.AssignColumnarServices | deployment/dockerdeploy/deployer.go:155-166 | rejected exactly when some group chooses services |
| ModifyCluster.ColumnarEntries | deployment/dockerdeploy/deployer.go:155-166 | every entry of a columnar definition asks for the data and analytics services |
| StringOrder.SortIsCanonical | clusterdef/services.go:27-33 | two lists sort to the same list if and only if they are equal as multisets |
| ClusterDef.CompareServicesZero | clusterdef/services.go:21-34 | services compare equal if and only if they are equal as multisets |
| ClusterDef.CompareServicesAntisymmetric | clusterdef/services.go:21-34 | swapping the arguments swaps the sign |
| Firewall.CompileInputMeansPolicy | deployment/dockerdeploy/controller.go:1196-1315 | for every mode, lists, reject style and packet, first-match evaluation of the emitted INPUT chain is the policy |
| Firewall.BeginningPermits | deployment/dockerdeploy/controller.go:1196-1315 | no beginning of the emitted INPUT chain rejects what the policy permits |
| Firewall.BlockClientsPermits | deployment/dockerdeploy/controller.go:1281-1305 | blocking clients leaves exactly the node range without the gateway and 127.0.0.0 to 127.255.255.255 open |
| Firewall.StylesBlockTheSame | deployment/dockerdeploy/controller.go:1202-1232 | how a packet is rejected does not change which packets are |
| Firewall.BlockedAreAnswered | deployment/dockerdeploy/controller.go:1202-1232 | how a blocked packet is answered in each style: dropped, reset, rejected by default or with the given response |
| Firewall.ContainsIsRange | deployment/dockerdeploy/controller.go:1195-1232 | an aligned block is a range of addresses from its base |
| Firewall.OutputIgnoresMode | deployment/dockerdeploy/controller.go:1256-1281 | OUTPUT accepts exactly what the lists do not block, whatever the mode |
| TrafficControl.Host.ExecIptables | deployment/dockerdeploy/controller.go:1111-1135 | a command that fails is tried once more after an installation; it takes effect exactly if it succeeds |
| TrafficControl.Host.SetTrafficControl | deployment/dockerdeploy/controller.go:1146-1326 | on success the chains are those of the policy, whatever they were, and the container lets in exactly what the policy permits for the node range, which is the IP range or else the subnet of the first configuration; on failure the rules are as before if no flush worked, and a beginning of the policy's INPUT chain if the installation stopped; exactly when it succeeds; other containers are untouched; allowing everything runs one flush, whose failure is ignored |
| TrafficControl.IdentifyMeans | deployment/dockerdeploy/controller.go:1170-1188 | the node range is identified if and only if the first configuration has a gateway and an IP range or a subnet, and the IP range comes first |
| NodeTraffic.BlockNodeTraffic | deployment/dockerdeploy/deployer.go:777-816 | on success each selected container lets in exactly the gateway and what is outside the node range, or the rest of the node range and the loopback addresses, or nothing, as the kind of traffic says, and answers the rest in the style asked for; on failure each holds its old rules, the policy, or where the operation stopped a beginning of it; others are unchanged; exactly when it succeeds |
| NodeTraffic.SelectedMeans | deployment/dockerdeploy/deployer.go:777-796 | exactly the containers of the requested nodes are selected, or of all nodes if none is requested |
| NodeTraffic.FoundIsLast | deployment/dockerdeploy/deployer.go:758-775 | of several nodes with the requested identifier the last one is found |
| NodeTraffic.AllowNodeTraffic | deployment/dockerdeploy/deployer.go:818-847 | a flush is tried in each selected container; those in which one worked accept everything, the others and all unselected ones keep their rules; exactly when it succeeds |
| NodeTraffic.PartitionNodeTraffic | deployment/dockerdeploy/deployer.go:849-895 | on success each island container lets in exactly the gateway, what is outside the node range, and the addresses of island and utility nodes; on failure each holds its old rules, the policy or a beginning of it; others are unchanged; succeeds if and only if nothing fails, the ids are duplicate-free and known, and the network is identified; bad ids leave everything untouched |
| NodeTraffic.CutPermits | deployment/dockerdeploy/controller.go:1196-1315 | where an operation stopped, the container rejects nothing that the policy permits |
| NodeTraffic.StoppedBlockOpens | deployment/dockerdeploy/controller.go:1190-1260 | an example: a container that rejected everything accepts everything after a failed Block |
| NodeTraffic.PartitionSeparates | deployment/dockerdeploy/deployer.go:849-895 | an island node accepts packets from another node if and only if that node is on the island or a utility |
| NodeTraffic.PartitionSparesOthers | deployment/dockerdeploy/deployer.go:879-892 | containers outside the island keep their chains |
| NodeTraffic.LengthCheckIsExact | deployment/dockerdeploy/deployer.go:855-864 | the length check passes if and only if the ids are duplicate-free and all in the cluster |
| NodeTraffic.LastOperationDecides | deployment/dockerdeploy/deployer.go:777-895 | over any sequence of operations, failed ones included, each container implements the policy of the last one that flushed its rules, or holds a beginning of it if that operation stopped there; one that none flushed keeps its rules |
| NodeTraffic.AllowRestores | deployment/dockerdeploy/controller.go:1158-1168 | after Allow, successful or not, a container accepts everything if and only if its flush worked or it accepted everything before; without iptables it always does |
| NodeTraffic.FailedFlushKeepsBlocking | deployment/dockerdeploy/controller.go:1158-1168 | an example: everything is blocked, the flush fails, Allow succeeds, every packet is still rejected |
| NodeTraffic.AllowAllRestores | deployment/dockerdeploy/deployer.go:818-847 | after any operations, failed ones included, allowing without a list makes a node accept every packet if and only if its flush worked, or the last policy that reached it permits everything, or what was installed of it before it stopped does |
| RebalanceRetry.CheckClusterIsBalanced | utils/clustercontrol/nodemanager.go:294-358 | true if and only if the whole pass saw exactly one self-named orchestrator, balanced, and no counted node with a status other than empty or healthy, or to be ejected |
| RebalanceRetry.PassVerdict | utils/clustercontrol/nodemanager.go:294-358 | the verdict on a pass in terms of its answers |
| RebalanceRetry.EarlyPass | utils/clustercontrol/nodemanager.go:300-349 | a pass that stops early was stopped by its last answer, and no earlier answer would have stopped it |
| RebalanceRetry.SelectControlNode | utils/clustercontrol/nodemanager.go:370-407 | the first node with a known OTP name that is not to be ejected, if it has an address |
| RebalanceRetry.SearchMeans | utils/clustercontrol/nodemanager.go:370-407 | the search in terms of the answers: every node asked before the chosen one did not answer, is in no cluster, or is to be ejected |
| RebalanceRetry.StillPresent | utils/clustercontrol/nodemanager.go:445-459 | exactly the names that are still listed, as often as they were there, in the caller's order |
| RebalanceRetry.AwaitBalance | utils/clustercontrol/nodemanager.go:432-482 | gives up only after the stability window; at most 15 passes with a pause of one second after each; the last one, and no other, decides success |
| RebalanceRetry.RebalanceWithRetry | utils/clustercontrol/nodemanager.go:360-485 | everything the run does and sees is the log of its rounds, in order: the search for a control node, the listing, the rebalance through that very node, the end of its tasks, the passes, the listing for the next round; how each round ends, what it leaves to the next, and what the outcome means |
| RebalanceRetry.ReconcileRebalance | deployment/dockerdeploy/deployer_rebalance.go:48-49 | such a run for a window of 15 minutes from a moment during the call, in which at most 61 rebalances are started |
| RebalanceRetry.AttemptsAreSpaced | utils/clustercontrol/nodemanager.go:360-485 | rebalances are at least 15 seconds apart, the time left bounds their number, and each ejects some of the caller's names |
| RebalanceRetry.RebalancesAreWellIssued | utils/clustercontrol/nodemanager.go:370-423 | every rebalance goes through a node that had answered before under a name that is not ejected, and names the members that this node has just listed |
| RebalanceRetry.BalancedMeansValidated | utils/clustercontrol/nodemanager.go:416-485 | a successful run ends with a rebalance, the end of its tasks, only questions to nodes after that, and last a complete pass that found the cluster balanced without the names of that rebalance |
| RebalanceRetry.DropsAreUnlisted | utils/clustercontrol/nodemanager.go:438-462 | over all rounds a name is dropped only if a listing of the members did not have it |
| RebalanceRetry.RetriesEjectListed | utils/clustercontrol/nodemanager.go:438-465 | a retry ejects exactly those names of the rebalance before it that the listing in between still had; with nothing to eject nothing is listed |
| RebalanceRetry.BalancedMeansGone | utils/clustercontrol/nodemanager.go:360-485 | on success every name that the caller wanted to eject was missing from a listing of members, or reported by no counted node of the pass after the last rebalance |
| RebalanceRetry.BalancedMeansOneOrchestrator | utils/clustercontrol/nodemanager.go:294-358 | in that pass exactly one of the listed containers, leaving and stray ones included, names itself the orchestrator, and it reports balance |
| RebalanceRetry.BalancedMeansHealthy | utils/clustercontrol/nodemanager.go:294-358 | in that pass every node that answered both questions under an OTP name has status "" or "healthy" |
| ServiceGroups.MatchesIsCanonEquality | deployment/clouddeploy/specs.go:148-180 | groups match if and only if their canonical forms are equal, an equivalence |
| ServiceGroups.CanonMeans | deployment/clouddeploy/specs.go:104-180 | what counts as a difference: number of nodes, compute, multiset of services, disk type, and size and iops where the provider reads them |
| ServiceGroups.ServiceGroupsEqual | deployment/clouddeploy/specs.go:122-146 | true if and only if the canonical groups are equal as multisets |
| ServiceGroups.MarkMatch | deployment/clouddeploy/specs.go:127-142 | marks one more current group with the wanted canonical form, or none is left |
| ServiceGroups.BuildServiceGroups | deployment/clouddeploy/specs.go:35-102 | accepted exactly for a known provider and entries with offered services and no instance type without server image; one group per entry, in order, with the entry's settings or the provider's defaults and the Capella names of its services |
| ServiceGroups.ReapplyIsNoOp | deployment/clouddeploy/specs.go:119-167 | any reordered report that differs only where Capella may differ compares equal |
| ServiceGroups.ChangesAreSeen | deployment/clouddeploy/specs.go:35-167 | entries build equal groups if and only if count, cpu, memory, services and the disk settings that the provider reads agree, where leaving a setting out asks for its default |
| ServiceGroups.NamesKeepBags | clusterdef/services.go:108-135 | translated lists are equal as multisets if and only if the services are |
| MetaCodec.PrintRoundTrip | utils/stringclustermeta/stringclustermeta.go:18-60 | parsing a printed name returns the metadata if and only if the expiry is a whole second of a year below 10000; any purpose |
| MetaCodec.PrintInjective | utils/stringclustermeta/stringclustermeta.go:18-27 | different metadata have different names |
| MetaCodec.ParseThenPrint | utils/stringclustermeta/stringclustermeta.go:18-60 | what parses prints to a name that parses to the same |
| MetaCodec.MomentRoundTrip | utils/stringclustermeta/stringclustermeta.go:20-46 | the timestamp survives exactly under that condition, and holds no underscore |
| MetaCodec.MomentText | utils/stringclustermeta/stringclustermeta.go:44-48 | exactly the texts YYYYMMDD-HHMMSS of a moment of the calendar parse, to that moment |
| MetaCodec.PrintedText | utils/stringclustermeta/stringclustermeta.go:18-27 | the printed name, part by part |
| MetaCodec.NotOursExactly | utils/stringclustermeta/stringclustermeta.go:29-37 | a name is taken for somebody else's exactly if it does not start with the mark and two more parts |
| MetaCodec.OursExactly | utils/stringclustermeta/stringclustermeta.go:39-60 | otherwise it is malformed exactly if its id or its expiry does not parse, and everything after the third underscore is the purpose |
| MetaCodec.GlueRoundTrip | utils/stringclustermeta/stringclustermeta.go:22-30 | splitting at three underscores undoes the printing of the parts |
| Uuid.FormsRoundTrip | utils/cbdcuuid/uuid.go:19-53 | the 32 and the 26 character form of an id parse to it |
| Uuid.ShortStringInjective | utils/cbdcuuid/uuid.go:43-53 | different ids have different forms |
| Uuid.ParseIdAccepts | utils/cbdcuuid/uuid.go:19-41 | exactly which texts parse, in terms of the digits |
| Uuid.ParseIdExactly | utils/cbdcuuid/uuid.go:19-41 | a text parses to an id if and only if it spells 32 hexadecimal digits of the number that the bytes denote, or 26 base32hex digits of four times this number, two bits ignored |
| Uuid.FormsShow | utils/cbdcuuid/uuid.go:43-53 | which digits are printed, in lower case: those of that number, or of exactly four times it |
| Uuid.EncodeRoundTrip | utils/cbdcuuid/uuid.go:43-53 | decoding digits of four or five bits undoes encoding |
| Radix.GatherSpread | utils/cbdcuuid/uuid.go:29-36 | regrouping bits and back is the identity, whatever bits pad the end |
| VersionIdent.TagRoundTrip | utils/versionident/versionident.go:18-72 | parsing a printed tag recovers version, edition and serverless mark, and the build number if and only if it is not negative |
| VersionIdent.TagText | deployment/dockerdeploy/serverlessimageprovider.go:41-57 | the text of a tag, part by part |
| VersionIdent.IdentifiedExactly | utils/versionident/versionident.go:18-72 | exactly what a text is identified as: its shapes, the defaults of what is left out, and that everything else is rejected |
| VersionIdent.IdentifyTagParts | deployment/dockerdeploy/serverlessimageprovider.go:41-57 | what the parts of a printed tag are identified as |
| VersionIdent.IdentifiedIsDotted | utils/versionident/versionident.go:25-63 | whatever is identified is a dotted, dash-free version without negative build number and survives being printed again |
| RemoveAll.RemoveAll | deployment/clouddeploy/deployer.go:1512-1608 | exactly which calls are made, in order: every listed cluster is deleted, a columnar one by its own id, and waited for, a columnar one together with the id from its detail, and nothing else; a project is deleted if and only if everything in it was listed, deleted and waited for; success means no failure |
| RemoveAll.FindTargets | deployment/clouddeploy/deployer.go:1524-1561 | which clusters are found in a project, in order, a columnar one if and only if both listings worked and its detail is known; exactly when the project counts as failed |
| RemoveAll.ProjectMeans | deployment/clouddeploy/deployer.go:1524-1561 | what is found, in terms of the answers: plain clusters without a second id, columnar ones with the id in their detail |
| RemoveAll.FoundInOrder | deployment/clouddeploy/deployer.go:1532-1560 | plain clusters come before columnar ones, each in the order of its listing |
| RemoveAll.DeleteAll | deployment/clouddeploy/deployer.go:1565-1577 | every deletion is issued, in order, whatever happened to the others; which projects have failed by then |
| RemoveAll.DeleteProjects | deployment/clouddeploy/deployer.go:1593-1604 | exactly the emptied projects are deleted, in the order of the listing |
| ListFanIn.StepInv | cmd/list.go:48-79 | every step of every goroutine keeps the invariant |
| ListFanIn.NoSendAfterClose | cmd/list.go:60-72 | in no interleaving does anything panic or can a send follow the close |
| ListFanIn.NoDeadlock | cmd/list.go:48-79 | some step is possible until the collecting loop is over, for any positive capacity |
| ListFanIn.CollectedIsUnion | cmd/list.go:74-79 | what is collected is the multiset union of all listings |
| ListFanIn.RunsAreBounded | cmd/list.go:48-79 | no interleaving goes on forever |
| ListFanIn.RunsEndWithUnion | cmd/list.go:48-79 | a run that cannot go on has collected the union |
| StabilityWindow.JudgeGiven | utils/caocontrol/controller.go:931-988 | available if and only if the required conditions hold, no condition is bad or unknown, and the size is the expected one |
| StabilityWindow.AvailableMeans | utils/caocontrol/controller.go:931-988 | the conditions by name: Available and Balanced must hold, the nine others must not, and nothing else may be reported |
| StabilityWindow.SettledMeans | utils/caocontrol/controller.go:920-1000 | a wait settles if and only if the window lasted for 15 seconds and every poll in it read such a status |
| StabilityWindow.WindowByLastFailure | utils/caocontrol/controller.go:990-999 | comparing with the last failure decides whether every poll of the last 15 seconds was good |
| StabilityWindow.Watch.Check | utils/caocontrol/controller.go:920-1000 | one poll of what the cluster answered: its answer, and what is remembered |
| StabilityWindow.Watch.WaitForFunc | utils/caocontrol/controller.go:93-115 | succeeds exactly at the first poll that ends a stable window; each poll judges one answer of the cluster and starts at least half a second after the one before it ended; pauses are half a second; at most maxWait/500ms + 1 polls |
| StabilityWindow.WaitCouchbaseClusterAvailable | utils/caocontrol/controller.go:910-1005 | the same for 20 minutes, pacing included: at most 2401 polls |
| Paging.Client.DoRead | utils/capellav4/client.go:182-213 | at most 11 requests; failures without a status, or with 408, 429 or 500 and above, are repeated, all others end it; the status in the body goes first; how long it waited |
| Paging.BackoffFormula | utils/capellav4/client.go:201-211 | k retries wait 500k + 50k(k-1) ms, never above 9500 |
| Paging.PageAdvances | utils/capellav4/client.go:244-261 | a page continues where the one before it ended, all but the last hold 100 items, and reading stops at the last page exactly |
| Paging.Client.ListAll | utils/capellav4/client.go:238-263 | the whole collection in order after max(1, ceil(n/100)) pages, or an error |
| Paging.PassesBounded | utils/capellav4/client.go:182-263 | every page costs at most eleven requests |
| ClusterListing.ListClusters | deployment/dockerdeploy/deployer_clusterinfo.go:91-138 | one cluster object per id, in order of first occurrence, with the record of its containers |
| ClusterListing.ClusterInfo.Include | deployment/dockerdeploy/deployer_clusterinfo.go:106-134 | what one more container changes in its cluster's record |
| ClusterListing.IdsDistinct | deployment/dockerdeploy/deployer_clusterinfo.go:91-104 | ids are distinct and are those of the containers |
| ClusterListing.ListedInOrder | deployment/dockerdeploy/deployer_clusterinfo.go:91-104 | clusters are listed in the order of their first containers |
| ClusterListing.EachInItsCluster | deployment/dockerdeploy/deployer_clusterinfo.go:106-118 | each container is in the cluster with its id, as often as listed, and in no other |
| ClusterListing.NodesInOrder | deployment/dockerdeploy/deployer_clusterinfo.go:106-118 | the nodes of a cluster are in the order of the listing |
| ClusterListing.ExpiryIsLatest | deployment/dockerdeploy/deployer_clusterinfo.go:120-126 | the expiry is the maximum of the cluster nodes' expiries, zero if there is none |
| ClusterListing.DetailsOfLastNode | deployment/dockerdeploy/deployer_clusterinfo.go:120-129 | creator, owner, purpose, DNS name and certificate flag are those of the last listed cluster node, empty if there is none |
| ClusterListing.ColumnarIfAny | deployment/dockerdeploy/deployer_clusterinfo.go:131-134 | the cluster is columnar if and only if some node is |
| ClusterListing.OrderIrrelevant | deployment/dockerdeploy/deployer_clusterinfo.go:80-138 | members, type and expiry of a cluster do not depend on the order of the listing |

## Left out

- Modification.AddRemoveNodes: the rebalance is one environment step that ejects the given names when it succeeds; what the retries observe before they report success is `RebalanceRetry.BalancedMeansGone` and `RebalanceRetry.BalancedMeansOneOrchestrator`, and that a node without trace in the cluster is out of it is an assumption about ns_server.
- Modification.AddRemoveNodes: containers, addresses and reported OTP names are distinct, balancer containers have a configuration, and Docker hands out unused containers and addresses; stopped containers, which have no address, are not modelled.
- ModifyCluster.ModifyCluster: an entry without services matches nodes with the default services, but a new node is registered with the empty list, as the code does; what ns_server then runs is not modelled.
- TrafficControl.Host.SetTrafficControl: an iptables command that fails has no effect.
- NodeTraffic.PartitionSeparates: assumes that node addresses lie in the node range and differ from the gateway, which Docker provides.
- Paging.Client.ListAll: the server holds the same collection throughout; against one that changes between pages, or answers a page without a body, the loop need not end or stops early.
- RebalanceRetry.RebalanceWithRetry: waiting for tasks is one step that returns or fails, since its poll is unbounded.
- RemoveAll.RemoveAll: the filter for projects of this tool and the contents of error messages are not modelled.
- ListFanIn.NoDeadlock: the channel is buffered, as in the code; a rendezvous on an unbuffered one is not modelled.
- MetaCodec.MomentText: the time parser also accepts a fraction of a second, which is never printed and which the model rejects. Conversion from local time zones is left out.
- Uuid.ParseIdExactly: the base32 decoder skips line breaks, and upper-casing may turn letters outside ASCII into digits of the alphabet; no printed form has either, and the model rejects both.
- ClusterListing.ListClusters: containers come in the order of their names; which of several cluster nodes gives owner and purpose is modelled, the sort itself is not.
- Sorting inside comparisons is a function on values, not in place: the source sorts clones that nobody else sees.
- Text of nginx, haproxy and iptables commands, TLS and columnar flags of balancer updates: only target sets and rules are modelled.
- Creating clusters, image lookup, certificates, command line, HTTP, Docker, Kubernetes and cloud clients: input and output without decisions of the kind proved here.
- Retry limits of the older Capella client and `IdentifyCluster`: their error paths have no bound to prove.
