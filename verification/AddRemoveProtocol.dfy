/** The whole add/remove run, phase by phase: prepare, route away, rebalance, remove, route back. */
module AddRemoveProtocol {
  import opened Topology
  import opened ClusterDef
  import opened Membership
  import opened RoutingSteps

  // ----- what a rebalance may do to the routing -----

  /** Whatever membership a rebalance passes through, the promises are kept: nothing is listed that is about to leave,
      and whoever is about to join runs and is listed by the health-checked balancers. */
  ghost predicate ReadyToRebalance(r: Routing, t: Terms, leaving: set<Ipv4>) {
    && (t.passive ==> forall lb, a | lb in r.passive && a in r.passive[lb] :: a in r.members - leaving)
    && (t.listing ==> forall k, d | k in r.dns && d in r.dns[k] :: d.address in r.members - leaving)
    && (t.covering ==> forall lb, a | lb in r.active && a in r.members + (r.pending - leaving) :: a in r.active[lb])
    && (t.running ==> r.members + (r.pending - leaving) <= r.running)
    && (t.certs ==> r.pending <= r.certified)
  }

  lemma TransitIsSafe(r: Routing, t: Terms, leaving: set<Ipv4>, r': Routing)
    requires ReadyToRebalance(r, t, leaving)
    requires r.members - leaving <= r'.members <= r.members + (r.pending - leaving) && r'.pending <= r.pending
    requires r' == r.(members := r'.members, pending := r'.pending)
    ensures Safe(r', t)
  {
  }

  /** The initial control node is the last one that can drive the rebalance. */
  method SelectInitialNode(nodes: seq<NodeInfo>, otps: seq<string>) returns (found: bool, chosen: nat)
    ensures found <==> exists n :: n in nodes && CanControl(n, otps)
    ensures found ==> chosen < |nodes| && CanControl(nodes[chosen], otps)
    ensures found ==> forall j | chosen < j < |nodes| :: !CanControl(nodes[j], otps)
  {
    found, chosen := false, 0;
    for i := 0 to |nodes|
      invariant found ==> chosen < i && CanControl(nodes[chosen], otps)
      invariant forall j | (if found then chosen + 1 else 0) <= j < i :: !CanControl(nodes[j], otps)
    {
      if nodes[i].IsClusterNode() && nodes[i].otp != "" && nodes[i].otp !in otps {
        found, chosen := true, i;
      }
    }
  }

  ghost function Rebalanced(r: Routing, leaving: set<Ipv4>): Routing {
    r.(members := (r.members + r.pending) - leaving, pending := {})
  }

  method RunRebalance(w: World, nodes: seq<NodeInfo>, otps: seq<string>, ghost t: Terms) returns (ok: bool)
    requires w.Steady(t) && !w.failed && ReadyToRebalance(w.Now(), t, Ejected(nodes, otps))
    modifies w`failed, w`members, w`pending, w`history
    ensures w.Steady(t) && old(w.history) <= w.history
    ensures ok <==> !w.failed && exists n :: n in nodes && CanControl(n, otps)
    ensures ok ==> w.Now() == Rebalanced(old(w.Now()), Ejected(nodes, otps))
  {
    ghost var before := w.Now();
    ghost var leaving := Ejected(nodes, otps);
    var found, chosen := SelectInitialNode(nodes, otps);
    if !found { return false; }
    ghost var transit;
    ok, transit := w.Rebalance(leaving);
    forall r | r in transit ensures Safe(r, t) { TransitIsSafe(before, t, leaving, r); }
    TransitIsSafe(before, t, leaving, w.Now());
    AllSafeExtends(old(w.history), transit, w.Now(), t);
  }

  lemma AllSafeExtends(run: seq<Routing>, more: seq<Routing>, last: Routing, t: Terms)
    requires AllSafe(run, t) && Safe(last, t) && forall r | r in more :: Safe(r, t)
    ensures AllSafe(run + more + [last], t)
  {
    AllSafeEverywhere(run, t);
    AllSafeEverywhere(run + more + [last], t);
  }

  // ----- removing containers -----

  ghost function ContainersOf(nodes: seq<NodeInfo>): set<string> {
    set n | n in nodes :: n.containerId
  }

  /** Each leaving node is the only one of `nodes` with its container and its address. */
  ghost predicate Identifies(nodes: seq<NodeInfo>, leaving: seq<NodeInfo>) {
    forall n, l | n in nodes && l in leaving && (n.containerId == l.containerId || n.address == l.address) :: n == l
  }

  /** Dropping a node that is no member takes no member's container away. */
  lemma MembersKeepRunning(nodes: seq<NodeInfo>, next: NodeInfo, members: set<Ipv4>)
    requires members <= MemberAddresses(nodes)
    requires forall n | n in nodes && n.containerId == next.containerId :: n == next
    requires next.IsClusterNode() ==> next.address !in members
    ensures members <= MemberAddresses(WithoutContainer(nodes, next.containerId))
  {
    KeepAll(nodes, []);
    KeepByContainer(nodes, [], next);
    KeepKeeps(nodes, [next]);
    assert [] + [next] == [next];
    forall a | a in members ensures a in MemberAddresses(Keep(nodes, [next])) {
      var n :| n in nodes && n.IsClusterNode() && n.address == a;
      assert n in Keep(nodes, [next]);
    }
  }

  function Dropped(balancers: map<string, seq<Ipv4>>, leaving: seq<NodeInfo>): map<string, seq<Ipv4>> {
    if leaving == [] then balancers
    else Dropped(balancers, leaving[..|leaving| - 1]) - {leaving[|leaving| - 1].containerId}
  }

  lemma DroppedNext(balancers: map<string, seq<Ipv4>>, leaving: seq<NodeInfo>, i: nat)
    requires i < |leaving|
    ensures leaving[..i + 1] == leaving[..i] + [leaving[i]]
    ensures Dropped(balancers, leaving[..i + 1]) == Dropped(balancers, leaving[..i]) - {leaving[i].containerId}
  {
    assert leaving[..i + 1][..i] == leaving[..i];
  }

  lemma {:induction false} DroppedAt(balancers: map<string, seq<Ipv4>>, leaving: seq<NodeInfo>)
    ensures Dropped(balancers, leaving) == balancers - ContainersOf(leaving)
  {
    if leaving == [] {
      assert ContainersOf(leaving) == {};
    } else {
      var k := |leaving| - 1;
      DroppedAt(balancers, leaving[..k]);
      assert leaving == leaving[..k] + [leaving[k]];
      assert ContainersOf(leaving) == ContainersOf(leaving[..k]) + {leaving[k].containerId};
    }
  }

  lemma {:induction false} WithoutContainerMember(nodes: seq<NodeInfo>, containerId: string)
    ensures forall n :: n in WithoutContainer(nodes, containerId) <==> n in nodes && n.containerId != containerId
  {
    if nodes != [] {
      var k := |nodes| - 1;
      WithoutContainerMember(nodes[..k], containerId);
      assert nodes == nodes[..k] + [nodes[k]];
    }
  }

  lemma DistinctExtend(rest: seq<NodeInfo>, nodes: seq<NodeInfo>, n: NodeInfo)
    requires DistinctContainers(rest) && DistinctAddresses(rest) && forall m | m in rest :: m in nodes
    requires DistinctContainers(nodes + [n]) && DistinctAddresses(nodes + [n])
    ensures DistinctContainers(rest + [n]) && DistinctAddresses(rest + [n])
  {
    forall m | m in rest ensures m.containerId != n.containerId && m.address != n.address {
      var p :| 0 <= p < |nodes| && nodes[p] == m;
      assert (nodes + [n])[p] == m && (nodes + [n])[|nodes|] == n;
    }
  }

  lemma {:induction false} WithoutContainerDistinct(nodes: seq<NodeInfo>, containerId: string)
    requires DistinctContainers(nodes) && DistinctAddresses(nodes)
    ensures DistinctContainers(WithoutContainer(nodes, containerId))
            && DistinctAddresses(WithoutContainer(nodes, containerId))
  {
    if nodes != [] {
      var k := |nodes| - 1;
      var rest := WithoutContainer(nodes[..k], containerId);
      WithoutContainerDistinct(nodes[..k], containerId);
      WithoutContainerMember(nodes[..k], containerId);
      assert nodes == nodes[..k] + [nodes[k]];
      DistinctExtend(rest, nodes[..k], nodes[k]);
    }
  }

  /** What a container is and where it is does not change when another one is removed. */
  ghost predicate CoherentRest(nodes: seq<NodeInfo>, rest: seq<NodeInfo>, containerId: string) {
    && DistinctContainers(rest) && DistinctAddresses(rest)
    && BalancersOf(rest, Haproxy) == BalancersOf(nodes, Haproxy) - {containerId}
    && BalancersOf(rest, Nginx) == BalancersOf(nodes, Nginx) - {containerId}
    && RecordKinds(IsColumnar(nodes)) <= RecordKinds(IsColumnar(rest))
  }

  lemma RemovalIsCoherent(nodes: seq<NodeInfo>, containerId: string)
    requires DistinctContainers(nodes) && DistinctAddresses(nodes)
    ensures CoherentRest(nodes, WithoutContainer(nodes, containerId), containerId)
  {
    WithoutContainerMember(nodes, containerId);
    WithoutContainerDistinct(nodes, containerId);
  }

  method RemoveNode(w: World, next: NodeInfo, ghost t: Terms, ghost dnsEnabled: bool) returns (ok: bool)
    requires w.Steady(t) && !w.failed && w.Coherent(dnsEnabled)
    requires t.running ==> w.members <= MemberAddresses(WithoutContainer(w.containers, next.containerId))
    modifies w`failed, w`containers, w`active, w`passive, w`history
    ensures w.Steady(t) && old(w.history) <= w.history && w.failed == !ok && w.Coherent(dnsEnabled)
    ensures w.containers == old(w.containers) || w.containers == WithoutContainer(old(w.containers), next.containerId)
    ensures ok ==> w.containers == WithoutContainer(old(w.containers), next.containerId)
    ensures ok ==> w.active == old(w.active) - {next.containerId} && w.passive == old(w.passive) - {next.containerId}
  {
    RemovalIsCoherent(w.containers, next.containerId);
    ok := w.RemoveContainer(next.containerId);
  }

  method RemoveLeavingNode(w: World, ghost all: seq<NodeInfo>, ghost gone: seq<NodeInfo>, next: NodeInfo,
                           ghost t: Terms, ghost dnsEnabled: bool)
    returns (ok: bool)
    requires w.Steady(t) && !w.failed && w.Coherent(dnsEnabled)
    requires w.containers == Keep(all, gone)
    requires forall n | n in all && n.containerId == next.containerId :: n == next
    requires t.running && next.IsClusterNode() ==> next.address !in w.members
    modifies w`failed, w`containers, w`active, w`passive, w`history
    ensures w.Steady(t) && old(w.history) <= w.history && w.failed == !ok && w.Coherent(dnsEnabled)
    ensures w.containers == Keep(all, gone) || w.containers == Keep(all, gone + [next])
    ensures ok ==> w.containers == Keep(all, gone + [next])
    ensures ok ==> w.active == old(w.active) - {next.containerId} && w.passive == old(w.passive) - {next.containerId}
  {
    KeepKeeps(all, gone);
    KeepByContainer(all, gone, next);
    if t.running { MembersKeepRunning(w.containers, next, w.members); }
    ok := RemoveNode(w, next, t, dnsEnabled);
  }

  method RemoveContainers(w: World, toRemove: seq<NodeInfo>, ghost t: Terms, ghost dnsEnabled: bool) returns (ok: bool)
    requires w.Steady(t) && !w.failed && w.Coherent(dnsEnabled) && Identifies(w.containers, toRemove)
    requires t.running ==> forall n | n in toRemove && n.IsClusterNode() :: n.address !in w.members
    modifies w`failed, w`containers, w`active, w`passive, w`history
    ensures w.Steady(t) && old(w.history) <= w.history && w.failed == !ok && w.Coherent(dnsEnabled)
    ensures exists k: nat :: k <= |toRemove| && w.containers == Keep(old(w.containers), toRemove[..k])
    ensures ok ==> w.containers == Keep(old(w.containers), toRemove)
    ensures ok ==> w.active == Dropped(old(w.active), toRemove) && w.passive == Dropped(old(w.passive), toRemove)
  {
    ghost var all := w.containers;
    KeepAll(all, []);
    for i := 0 to |toRemove|
      invariant w.Steady(t) && old(w.history) <= w.history && !w.failed && w.Coherent(dnsEnabled)
      invariant w.containers == Keep(all, toRemove[..i])
      invariant w.active == Dropped(old(w.active), toRemove[..i])
      invariant w.passive == Dropped(old(w.passive), toRemove[..i])
    {
      assert toRemove[i] in toRemove;
      DroppedNext(old(w.active), toRemove, i);
      DroppedNext(old(w.passive), toRemove, i);
      ok := RemoveLeavingNode(w, all, toRemove[..i], toRemove[i], t, dnsEnabled);
      if !ok { return; }
    }
    assert toRemove[..|toRemove|] == toRemove;
    ok := true;
  }

  // ----- the phases -----

  /** Deploy, certify and register the new nodes. Nothing is routed to them yet. */
  method PrepareNodes(w: World, cluster: Cluster, groups: seq<NodeGroup>, leases: seq<Lease>, ghost t: Terms)
    returns (ok: bool)
    requires |leases| == |groups|
    requires w.Steady(t) && !w.failed && (t.certs ==> cluster.usingCerts)
    modifies w`failed, w`containers, w`certified, w`registrations, w`pending, w`history
    ensures w.Steady(t) && old(w.history) <= w.history && w.failed == !ok
    ensures exists k: nat :: k <= |groups| &&
              w.containers == old(w.containers) + DeployedNodes(leases, groups, IsColumnar(cluster.nodes))[..k]
    ensures ok ==> w.containers == old(w.containers) + DeployedNodes(leases, groups, IsColumnar(cluster.nodes))
    ensures ok ==> w.pending == old(w.pending) + LeaseAddresses(leases)
    ensures ok ==> w.registrations == Registered(old(w.registrations), leases, groups)
    ensures ok ==> w.certified == old(w.certified) + if cluster.usingCerts then LeaseAddresses(leases) else {}
  {
    ghost var added := DeployedNodes(leases, groups, IsColumnar(cluster.nodes));
    assert w.containers == w.containers + added[..0];
    assert added[..|groups|] == added;
    ok := w.Attempt();  // resolve the images of the new nodes
    if !ok { return; }
    ok := DeployNodes(w, groups, leases, IsColumnar(cluster.nodes), t);
    if !ok { return; }
    if cluster.usingCerts {
      ok := w.Attempt();  // load the cluster's certificate authority
      if !ok { return; }
      ok := SetupNodeCertificates(w, leases, t);
      if !ok { return; }
    }
    ok := RegisterNodes(w, groups, leases, t);
  }

  /** The DNS records after an update, if the cluster has any. */
  function Published(dns: map<RecordKind, seq<RecordData>>, cluster: Cluster, columnar: bool, addresses: seq<Ipv4>)
    : map<RecordKind, seq<RecordData>>
  {
    if cluster.dnsEnabled then dns + RecordsFor(addresses, columnar, cluster.BalancerAddress()) else dns
  }

  /** The routing once passive balancers and DNS list these addresses. */
  function ListedOn(r: Routing, cluster: Cluster, columnar: bool, addresses: seq<Ipv4>): Routing {
    r.(passive := Retargeted(r.passive, cluster.nodes, Nginx, addresses),
       dns := Published(r.dns, cluster, columnar, addresses))
  }

  /** The routing once active balancers target these addresses. */
  function CoveredBy(r: Routing, cluster: Cluster, addresses: seq<Ipv4>): Routing {
    r.(active := Retargeted(r.active, cluster.nodes, Haproxy, addresses))
  }

  /** The routing once traffic is ready for the rebalance. */
  function RoutedAway(r: Routing, cluster: Cluster, targets: seq<Ipv4>, adding: bool,
                      toRemove: seq<NodeInfo>): Routing {
    var kept := ClusterAddresses(WithoutAddresses(cluster.nodes, AddressesOf(toRemove)));
    var covered := if adding then CoveredBy(r, cluster, targets) else r;
    if toRemove == [] then covered else ListedOn(covered, cluster, IsColumnar(cluster.nodes), kept)
  }

  /** A balancer that is about to be written to no longer has a container. */
  ghost predicate LacksBalancer(nodes: seq<NodeInfo>, r: Routing, writesActive: bool, writesPassive: bool) {
    || (writesActive && exists n :: n in nodes && n.kind.Haproxy? && n.containerId !in r.active)
    || (writesPassive && exists n :: n in nodes && n.kind.Nginx? && n.containerId !in r.passive)
  }

  /** The nodes may be listed by passive balancers and DNS: the promises apply to nobody, or all are members. */
  ghost predicate MayList(r: Routing, cluster: Cluster, nodes: seq<NodeInfo>, t: Terms) {
    && (t.passive ==> MemberAddresses(nodes) <= r.members || BalancersOf(cluster.nodes, Nginx) == {})
    && (t.listing && cluster.dnsEnabled ==> MemberAddresses(nodes) <= r.members)
  }

  /** The nodes may become the targets of active balancers: the promise applies to nobody, or all members are among
      them. */
  ghost predicate MayCover(r: Routing, cluster: Cluster, nodes: seq<NodeInfo>, t: Terms) {
    t.covering ==> r.members <= MemberAddresses(nodes) || BalancersOf(cluster.nodes, Haproxy) == {}
  }

  /** Lists the nodes in DNS and passive balancers. `began` is an earlier history. */
  method ListNodes(w: World, cluster: Cluster, nodes: seq<NodeInfo>, columnar: bool, ghost t: Terms,
                   ghost began: seq<Routing>)
    returns (ok: bool)
    requires w.Steady(t) && !w.failed && w.Coherent(cluster.dnsEnabled) && began <= w.history
    requires MayList(w.Now(), cluster, nodes, t) && RecordKinds(columnar) <= RecordKinds(IsColumnar(w.containers))
    modifies w`failed, w`passive, w`dns, w`history
    ensures w.Steady(t) && w.Coherent(cluster.dnsEnabled) && began <= w.history
    ensures ok <==> !w.failed && !LacksBalancer(cluster.nodes, old(w.Now()), false, true)
    ensures ok ==> w.Now() == ListedOn(old(w.Now()), cluster, columnar, ClusterAddresses(nodes))
    ensures LeavesDns(cluster, columnar) ==> w.dns == old(w.dns)
  {
    BalancerMeans(cluster);
    if cluster.dnsEnabled {
      ok := UpdateDnsRecords(w, nodes, columnar, cluster.BalancerAddress(), t);
      if !ok { return; }
    }
    ok := UpdatePassiveBalancers(w, cluster.nodes, nodes, t);
  }

  /** Makes the nodes the targets of active balancers. */
  method CoverNodes(w: World, cluster: Cluster, nodes: seq<NodeInfo>, ghost t: Terms, ghost began: seq<Routing>)
    returns (ok: bool)
    requires w.Steady(t) && !w.failed && w.Coherent(cluster.dnsEnabled) && began <= w.history
    requires MayCover(w.Now(), cluster, nodes, t)
    modifies w`failed, w`active, w`history
    ensures w.Steady(t) && w.Coherent(cluster.dnsEnabled) && began <= w.history
    ensures ok <==> !w.failed && !LacksBalancer(cluster.nodes, old(w.Now()), true, false)
    ensures ok ==> w.Now() == CoveredBy(old(w.Now()), cluster, ClusterAddresses(nodes))
  {
    ok := UpdateActiveBalancers(w, cluster.nodes, nodes, t);
  }

  /** Before the rebalance: cover the new nodes actively, stop routing passively to the leaving ones. */
  method RouteAway(w: World, cluster: Cluster, adding: bool, toRemove: seq<NodeInfo>, ghost t: Terms)
    returns (ok: bool)
    requires w.Steady(t) && !w.failed
    requires adding ==> MayCover(w.Now(), cluster, w.containers, t)
    requires toRemove != [] ==> MayList(w.Now(), cluster, WithoutAddresses(cluster.nodes, AddressesOf(toRemove)), t)
    requires RecordKinds(IsColumnar(cluster.nodes)) <= RecordKinds(IsColumnar(w.containers))
    requires w.Coherent(cluster.dnsEnabled)
    modifies w`failed, w`active, w`passive, w`dns, w`history
    ensures w.Steady(t) && old(w.history) <= w.history && w.Coherent(cluster.dnsEnabled)
    ensures ok <==> !w.failed && !LacksBalancer(cluster.nodes, old(w.Now()), adding, toRemove != [])
    ensures ok ==> w.Now() == RoutedAway(old(w.Now()), cluster, ClusterAddresses(w.containers), adding, toRemove)
    ensures LeavesDns(cluster, IsColumnar(cluster.nodes)) ==> w.dns == old(w.dns)
  {
    var kept := PostRemovalNodes(cluster.nodes, toRemove);
    if adding {
      ok := w.Attempt();  // list the containers again
      if !ok { return; }
      ok := CoverNodes(w, cluster, w.containers, t, old(w.history));
      if !ok { return; }
    }
    if toRemove != [] {
      ok := ListNodes(w, cluster, kept, IsColumnar(cluster.nodes), t, old(w.history));
      if !ok { return; }
    }
    ok := true;
  }

  /** The routing once everything lists what runs. */
  function RoutedBack(r: Routing, cluster: Cluster, nodes: seq<NodeInfo>, adding: bool, removing: bool): Routing {
    var targets := ClusterAddresses(nodes);
    var listed := if adding then ListedOn(r, cluster, IsColumnar(nodes), targets) else r;
    if removing then CoveredBy(listed, cluster, targets) else listed
  }

  /** After the rebalance: everything lists exactly what runs now. */
  method RouteBack(w: World, cluster: Cluster, adding: bool, removing: bool, ghost t: Terms)
    returns (ok: bool)
    requires w.Steady(t) && !w.failed && w.Coherent(cluster.dnsEnabled)
    requires adding ==> MayList(w.Now(), cluster, w.containers, t)
    requires removing ==> MayCover(w.Now(), cluster, w.containers, t)
    modifies w`failed, w`active, w`passive, w`dns, w`history
    ensures w.Steady(t) && old(w.history) <= w.history && w.Coherent(cluster.dnsEnabled)
    ensures ok <==> !w.failed && !LacksBalancer(cluster.nodes, old(w.Now()), removing, adding)
    ensures ok ==> w.Now() == RoutedBack(old(w.Now()), cluster, w.containers, adding, removing)
    ensures !adding || LeavesDns(cluster, IsColumnar(w.containers)) ==> w.dns == old(w.dns)
  {
    ok := w.Attempt();  // list the containers again
    if !ok { return; }
    if adding {
      ok := ListNodes(w, cluster, w.containers, IsColumnar(w.containers), t, old(w.history));
      if !ok { return; }
    }
    if removing {
      ok := CoverNodes(w, cluster, w.containers, t, old(w.history));
      if !ok { return; }
    }
  }
}
