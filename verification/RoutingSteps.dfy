/** Facts about node lists, and the loops that update balancers, DNS and registrations one step at a time. */
module RoutingSteps {
  import opened Topology
  import opened ClusterDef
  import opened Membership

  // ----- facts about the node lists -----

  lemma {:induction false} WithoutAddressesKeeps(nodes: seq<NodeInfo>, addresses: seq<Ipv4>)
    ensures forall n :: n in WithoutAddresses(nodes, addresses) <==> n in nodes && n.address !in addresses
  {
    if nodes != [] {
      var k := |nodes| - 1;
      WithoutAddressesKeeps(nodes[..k], addresses);
      assert nodes == nodes[..k] + [nodes[k]];
    }
  }

  lemma {:induction false} AddressesOfContains(nodes: seq<NodeInfo>)
    ensures forall a :: a in AddressesOf(nodes) <==> exists n :: n in nodes && n.address == a
  {
    if nodes != [] {
      var k := |nodes| - 1;
      AddressesOfContains(nodes[..k]);
      assert nodes == nodes[..k] + [nodes[k]];
    }
  }

  lemma {:induction false} OtpsOfContains(nodes: seq<NodeInfo>)
    ensures forall o :: o in OtpsOf(nodes) <==> exists n :: n in nodes && n.otp == o
  {
    if nodes != [] {
      var k := |nodes| - 1;
      OtpsOfContains(nodes[..k]);
      assert nodes == nodes[..k] + [nodes[k]];
    }
  }

  ghost predicate Distinct(nodes: seq<NodeInfo>) {
    DistinctContainers(nodes) && DistinctAddresses(nodes) && DistinctOtps(nodes)
  }

  lemma {:induction false} KeepKeeps(nodes: seq<NodeInfo>, leaving: seq<NodeInfo>)
    ensures forall n :: n in Keep(nodes, leaving) <==> n in nodes && n !in leaving
    ensures Distinct(nodes) ==> Distinct(Keep(nodes, leaving))
  {
    if nodes != [] {
      var k := |nodes| - 1;
      KeepKeeps(nodes[..k], leaving);
      assert nodes == nodes[..k] + [nodes[k]];
      if Distinct(nodes) {
        assert Distinct(nodes[..k]);
        KeptDiffersFromLast(nodes, Keep(nodes[..k], leaving));
      }
    }
  }

  lemma KeptDiffersFromLast(nodes: seq<NodeInfo>, kept: seq<NodeInfo>)
    requires nodes != [] && Distinct(nodes) && Distinct(kept)
    requires forall n | n in kept :: n in nodes[..|nodes| - 1]
    ensures Distinct(kept + [nodes[|nodes| - 1]])
  {
    forall i | 0 <= i < |kept|
      ensures exists p :: 0 <= p < |nodes| - 1 && nodes[p] == kept[i]
    {
      var front := nodes[..|nodes| - 1];
      assert kept[i] in kept && kept[i] in front;
      var p :| 0 <= p < |front| && front[p] == kept[i];
      assert nodes[p] == kept[i];
    }
  }

  lemma {:induction false} KeepAll(nodes: seq<NodeInfo>, leaving: seq<NodeInfo>)
    requires forall n | n in nodes :: n !in leaving
    ensures Keep(nodes, leaving) == nodes
  {
    if nodes != [] {
      var k := |nodes| - 1;
      assert nodes == nodes[..k] + [nodes[k]];
      KeepAll(nodes[..k], leaving);
    }
  }

  lemma {:induction false} KeepConcat(nodes: seq<NodeInfo>, more: seq<NodeInfo>, leaving: seq<NodeInfo>)
    ensures Keep(nodes + more, leaving) == Keep(nodes, leaving) + Keep(more, leaving)
  {
    if more == [] {
      assert nodes + more == nodes;
    } else {
      var k := |more| - 1;
      assert (nodes + more)[..|nodes + more| - 1] == nodes + more[..k];
      KeepConcat(nodes, more[..k], leaving);
    }
  }

  /** Filtering by address drops exactly the leaving nodes. */
  lemma {:induction false} KeepByAddress(nodes: seq<NodeInfo>, leaving: seq<NodeInfo>)
    requires forall n, l | n in nodes && l in leaving && n.address == l.address :: n == l
    ensures WithoutAddresses(nodes, AddressesOf(leaving)) == Keep(nodes, leaving)
  {
    if nodes != [] {
      var k := |nodes| - 1;
      assert nodes == nodes[..k] + [nodes[k]];
      KeepByAddress(nodes[..k], leaving);
      AddressesOfContains(leaving);
    }
  }

  /** Removing one container after another drops exactly the leaving nodes. */
  lemma {:induction false} KeepByContainer(nodes: seq<NodeInfo>, leaving: seq<NodeInfo>, next: NodeInfo)
    requires forall n | n in nodes && n.containerId == next.containerId :: n == next
    ensures WithoutContainer(Keep(nodes, leaving), next.containerId) == Keep(nodes, leaving + [next])
  {
    if nodes != [] {
      var k := |nodes| - 1;
      assert nodes == nodes[..k] + [nodes[k]];
      KeepByContainer(nodes[..k], leaving, next);
      var front := Keep(nodes[..k], leaving);
      assert (front + [nodes[k]])[..|front|] == front;
      assert nodes[k] in leaving + [next] <==> nodes[k] in leaving || nodes[k] == next;
      if nodes[k] in leaving { assert Keep(nodes, leaving) == front; }
    }
  }

  lemma {:induction false} FirstOfKindAppend(nodes: seq<NodeInfo>, n: NodeInfo, kind: NodeKind)
    ensures FirstOfKind(nodes + [n], kind) ==
            if exists m :: m in nodes && m.kind == kind then FirstOfKind(nodes, kind)
            else if n.kind == kind then n.address else 0
  {
    if nodes != [] {
      assert (nodes + [n])[1..] == nodes[1..] + [n];
      assert nodes == [nodes[0]] + nodes[1..];
      FirstOfKindAppend(nodes[1..], n, kind);
    }
  }

  /** Only removing a balancer changes which address the cluster's balancer answers on. */
  lemma {:induction false} BalancerSurvives(nodes: seq<NodeInfo>, leaving: seq<NodeInfo>, kind: NodeKind)
    requires forall n | n in leaving :: n.kind != kind
    ensures FirstOfKind(Keep(nodes, leaving), kind) == FirstOfKind(nodes, kind)
  {
    if nodes != [] {
      var k := |nodes| - 1;
      assert nodes == nodes[..k] + [nodes[k]];
      BalancerSurvives(nodes[..k], leaving, kind);
      KeepKeeps(nodes[..k], leaving);
      if nodes[k] in leaving { assert Keep(nodes, leaving) == Keep(nodes[..k], leaving); }
      if exists m :: m in nodes[..k] && m.kind == kind {
        var m :| m in nodes[..k] && m.kind == kind;
        assert m in Keep(nodes[..k], leaving);
      } else {
        NoneOfKind(nodes[..k], kind);
      }
      FirstOfKindAppend(nodes[..k], nodes[k], kind);
      FirstOfKindAppend(Keep(nodes[..k], leaving), nodes[k], kind);
    }
  }

  lemma {:induction false} BalancerSurvivesDeployment(nodes: seq<NodeInfo>, more: seq<NodeInfo>, kind: NodeKind)
    requires forall n | n in more :: n.kind != kind
    ensures FirstOfKind(nodes + more, kind) == FirstOfKind(nodes, kind)
  {
    if more == [] {
      assert nodes + more == nodes;
    } else {
      var k := |more| - 1;
      assert nodes + more == (nodes + more[..k]) + [more[k]];
      FirstOfKindAppend(nodes + more[..k], more[k], kind);
      BalancerSurvivesDeployment(nodes, more[..k], kind);
      if !exists m :: m in nodes + more[..k] && m.kind == kind { NoneOfKind(nodes + more[..k], kind); }
    }
  }

  lemma {:induction false} NoneOfKind(nodes: seq<NodeInfo>, kind: NodeKind)
    requires forall n | n in nodes :: n.kind != kind
    ensures FirstOfKind(nodes, kind) == 0
  {
    if nodes != [] { NoneOfKind(nodes[1..], kind); }
  }

  /** Adding and removing other nodes does not change the address that the cluster answers on. */
  lemma AddressSurvives(cluster: Cluster, added: seq<NodeInfo>, leaving: seq<NodeInfo>)
    requires forall n | n in added || n in leaving :: !n.kind.Haproxy? && !n.kind.Nginx?
    ensures cluster.(nodes := Keep(cluster.nodes + added, leaving)).BalancerAddress() == cluster.BalancerAddress()
  {
    BalancerSurvivesDeployment(cluster.nodes, added, Haproxy);
    BalancerSurvivesDeployment(cluster.nodes, added, Nginx);
    BalancerSurvives(cluster.nodes + added, leaving, Haproxy);
    BalancerSurvives(cluster.nodes + added, leaving, Nginx);
  }

  // ----- the loops -----

  method ProxyTargets(nodes: seq<NodeInfo>) returns (targets: seq<Ipv4>)
    ensures targets == ClusterAddresses(nodes)
    ensures forall a :: a in targets <==> a in MemberAddresses(nodes)
  {
    targets := [];
    for i := 0 to |nodes|
      invariant targets == ClusterAddresses(nodes[..i])
    {
      ClusterAddressesNext(nodes, i);
      if nodes[i].IsClusterNode() { targets := targets + [nodes[i].address]; }
    }
    assert nodes[..|nodes|] == nodes;
    AddressesAreMembers(nodes);
  }

  method PostRemovalNodes(nodes: seq<NodeInfo>, toRemove: seq<NodeInfo>) returns (kept: seq<NodeInfo>)
    ensures kept == WithoutAddresses(nodes, AddressesOf(toRemove))
    ensures forall n :: n in kept <==> n in nodes && forall l | l in toRemove :: l.address != n.address
  {
    AddressesOfContains(toRemove);
    WithoutAddressesKeeps(nodes, AddressesOf(toRemove));
    var leaving := [];
    for i := 0 to |toRemove|
      invariant leaving == AddressesOf(toRemove[..i])
    {
      assert toRemove[..i + 1] == toRemove[..i] + [toRemove[i]];
      leaving := leaving + [toRemove[i].address];
    }
    assert toRemove[..|toRemove|] == toRemove;
    kept := [];
    for i := 0 to |nodes|
      invariant kept == WithoutAddresses(nodes[..i], leaving)
    {
      assert nodes[..i + 1] == nodes[..i] + [nodes[i]];
      if nodes[i].address !in leaving { kept := kept + [nodes[i]]; }
    }
    assert nodes[..|nodes|] == nodes;
  }

  method BuildRecords(nodes: seq<NodeInfo>, columnar: bool, balancer: Ipv4)
    returns (records: map<RecordKind, seq<RecordData>>)
    ensures records == RecordsFor(ClusterAddresses(nodes), columnar, balancer)
    ensures records.Keys == RecordsFor([], columnar, balancer).Keys
    ensures forall k, d | k in records && d in records[k] :: d.address in MemberAddresses(nodes)
  {
    var addresses := ProxyTargets(nodes);
    records := map[];
    if !columnar || balancer == 0 {
      records := records[HostRecord := Records(0, addresses)];
    }
    if !columnar {
      records := records[ServiceRecord := Records(11210, addresses)];
      records := records[SecureServiceRecord := Records(11207, addresses)];
    }
  }

  /** An update writes only records that a cluster of its type may have. */
  lemma RecordsAreKinds(addresses: seq<Ipv4>, columnar: bool, balancer: Ipv4)
    ensures RecordsFor(addresses, columnar, balancer).Keys <= RecordKinds(columnar)
    ensures NodesListed(columnar, balancer) ==> RecordsFor(addresses, columnar, balancer).Keys == RecordKinds(columnar)
  {
  }

  method UpdateDnsRecords(w: World, nodes: seq<NodeInfo>, columnar: bool, balancer: Ipv4, ghost t: Terms)
    returns (ok: bool)
    requires w.Steady(t)
    requires t.listing ==> MemberAddresses(nodes) <= w.members
    modifies w`failed, w`dns, w`history
    ensures w.Steady(t) && old(w.history) <= w.history && w.failed == (old(w.failed) || !ok)
    ensures w.dns.Keys <= old(w.dns.Keys) + RecordKinds(columnar)
    ensures ok ==> w.dns == old(w.dns) + RecordsFor(ClusterAddresses(nodes), columnar, balancer)
    ensures columnar && balancer != 0 ==> w.dns == old(w.dns)
  {
    var records := BuildRecords(nodes, columnar, balancer);
    RecordsAreKinds(ClusterAddresses(nodes), columnar, balancer);
    ok := w.WriteRecords(records);
    assert t.listing ==> DnsWithin(w.Now());
  }

  /** Listing only members keeps any observation safe, as does listing every member in a health-checked balancer. */
  lemma RetargetIsSafe(r: Routing, t: Terms, balancer: string, nodes: seq<NodeInfo>)
    requires Safe(r, t)
    ensures (t.passive ==> MemberAddresses(nodes) <= r.members) ==>
              Safe(r.(passive := r.passive[balancer := ClusterAddresses(nodes)]), t)
    ensures (t.covering ==> r.members <= MemberAddresses(nodes)) ==>
              Safe(r.(active := r.active[balancer := ClusterAddresses(nodes)]), t)
  {
    AddressesAreMembers(nodes);
  }

  method UpdateActiveBalancer(w: World, balancer: string, nodes: seq<NodeInfo>, ghost t: Terms) returns (ok: bool)
    requires w.Steady(t)
    requires t.covering ==> w.members <= MemberAddresses(nodes)
    modifies w`failed, w`active, w`history
    ensures w.Steady(t) && old(w.history) <= w.history && (old(w.failed) ==> w.failed)
    ensures ok ==> w.failed == old(w.failed) && balancer in old(w.active)
    ensures !ok ==> w.failed || balancer !in old(w.active)
    ensures ok ==> w.active == old(w.active)[balancer := ClusterAddresses(nodes)]
    ensures w.active.Keys == old(w.active.Keys)
  {
    RetargetIsSafe(w.Now(), t, balancer, nodes);
    var targets := ProxyTargets(nodes);
    ok := w.UpdateActive(balancer, targets);
  }

  /** Fails exactly on an environment failure or on a balancer whose container is gone. */
  method UpdateActiveBalancers(w: World, balancers: seq<NodeInfo>, nodes: seq<NodeInfo>, ghost t: Terms)
    returns (ok: bool)
    requires w.Steady(t) && !w.failed
    requires t.covering ==> w.members <= MemberAddresses(nodes) || BalancersOf(balancers, Haproxy) == {}
    modifies w`failed, w`active, w`history
    ensures w.Steady(t) && old(w.history) <= w.history && w.active.Keys == old(w.active.Keys)
    ensures ok ==> !w.failed && w.active == Retargeted(old(w.active), balancers, Haproxy, ClusterAddresses(nodes))
    ensures !ok ==> w.failed || exists n :: n in balancers && n.kind.Haproxy? && n.containerId !in old(w.active)
    ensures ok ==> forall n | n in balancers && n.kind.Haproxy? :: n.containerId in old(w.active)
  {
    for i := 0 to |balancers|
      invariant w.Steady(t) && old(w.history) <= w.history && !w.failed && w.active.Keys == old(w.active.Keys)
      invariant w.active == Retargeted(old(w.active), balancers[..i], Haproxy, ClusterAddresses(nodes))
      invariant forall n | n in balancers[..i] && n.kind.Haproxy? :: n.containerId in old(w.active)
    {
      assert balancers[..i + 1] == balancers[..i] + [balancers[i]];
      if balancers[i].kind.Haproxy? {
        assert balancers[i].containerId in BalancersOf(balancers, Haproxy);
        ok := UpdateActiveBalancer(w, balancers[i].containerId, nodes, t);
        if !ok { return; }
      }
    }
    assert balancers[..|balancers|] == balancers;
    ok := true;
  }

  method UpdatePassiveBalancer(w: World, balancer: string, nodes: seq<NodeInfo>, ghost t: Terms) returns (ok: bool)
    requires w.Steady(t)
    requires t.passive ==> MemberAddresses(nodes) <= w.members
    modifies w`failed, w`passive, w`history
    ensures w.Steady(t) && old(w.history) <= w.history && (old(w.failed) ==> w.failed)
    ensures ok ==> w.failed == old(w.failed) && balancer in old(w.passive)
    ensures !ok ==> w.failed || balancer !in old(w.passive)
    ensures ok ==> w.passive == old(w.passive)[balancer := ClusterAddresses(nodes)]
    ensures w.passive.Keys == old(w.passive.Keys)
  {
    RetargetIsSafe(w.Now(), t, balancer, nodes);
    var targets := ProxyTargets(nodes);
    ok := w.UpdatePassive(balancer, targets);
  }

  /** Fails exactly on an environment failure or on a balancer whose container is gone. */
  method UpdatePassiveBalancers(w: World, balancers: seq<NodeInfo>, nodes: seq<NodeInfo>, ghost t: Terms)
    returns (ok: bool)
    requires w.Steady(t) && !w.failed
    requires t.passive ==> MemberAddresses(nodes) <= w.members || BalancersOf(balancers, Nginx) == {}
    modifies w`failed, w`passive, w`history
    ensures w.Steady(t) && old(w.history) <= w.history && w.passive.Keys == old(w.passive.Keys)
    ensures ok ==> !w.failed && w.passive == Retargeted(old(w.passive), balancers, Nginx, ClusterAddresses(nodes))
    ensures !ok ==> w.failed || exists n :: n in balancers && n.kind.Nginx? && n.containerId !in old(w.passive)
    ensures ok ==> forall n | n in balancers && n.kind.Nginx? :: n.containerId in old(w.passive)
  {
    for i := 0 to |balancers|
      invariant w.Steady(t) && old(w.history) <= w.history && !w.failed && w.passive.Keys == old(w.passive.Keys)
      invariant w.passive == Retargeted(old(w.passive), balancers[..i], Nginx, ClusterAddresses(nodes))
      invariant forall n | n in balancers[..i] && n.kind.Nginx? :: n.containerId in old(w.passive)
    {
      assert balancers[..i + 1] == balancers[..i] + [balancers[i]];
      if balancers[i].kind.Nginx? {
        assert balancers[i].containerId in BalancersOf(balancers, Nginx);
        ok := UpdatePassiveBalancer(w, balancers[i].containerId, nodes, t);
        if !ok { return; }
      }
    }
    assert balancers[..|balancers|] == balancers;
    ok := true;
  }

  method DeployNodes(w: World, groups: seq<NodeGroup>, leases: seq<Lease>, columnar: bool, ghost t: Terms)
    returns (ok: bool)
    requires |leases| == |groups|
    requires w.Steady(t) && !w.failed
    modifies w`failed, w`containers, w`history
    ensures w.Steady(t) && old(w.history) <= w.history && w.failed == !ok
    ensures exists k: nat :: k <= |groups|
                             && w.containers == old(w.containers) + DeployedNodes(leases, groups, columnar)[..k]
    ensures ok ==> w.containers == old(w.containers) + DeployedNodes(leases, groups, columnar)
  {
    ghost var all := DeployedNodes(leases, groups, columnar);
    for i := 0 to |groups|
      invariant w.Steady(t) && old(w.history) <= w.history && !w.failed
      invariant w.containers == old(w.containers) + all[..i]
    {
      assert all[..i + 1] == all[..i] + [all[i]];
      ok := w.DeployNode(Deployed(leases[i], groups[i], columnar));
      assert w.containers == old(w.containers) + all[..i] || w.containers == old(w.containers) + all[..i + 1];
      if !ok { return; }
    }
    assert all[..|groups|] == all;
    ok := true;
  }

  ghost predicate DistinctLeases(leases: seq<Lease>) {
    forall i, j | 0 <= i < j < |leases| ::
      leases[i].address != leases[j].address && leases[i].containerId != leases[j].containerId
  }

  ghost function LeaseAddresses(leases: seq<Lease>): set<Ipv4> {
    set l | l in leases :: l.address
  }

  function Registered(registrations: map<Ipv4, Registration>, leases: seq<Lease>, groups: seq<NodeGroup>)
    : map<Ipv4, Registration>
    requires |leases| == |groups|
  {
    if leases == [] then registrations
    else
      var k := |leases| - 1;
      Registered(registrations, leases[..k], groups[..k])
        [leases[k].address := Registration(groups[k].serverGroup, groups[k].services)]
  }

  method SetupNodeCertificates(w: World, leases: seq<Lease>, ghost t: Terms) returns (ok: bool)
    requires w.Steady(t) && !w.failed
    modifies w`failed, w`certified, w`history
    ensures w.Steady(t) && old(w.history) <= w.history && w.failed == !ok
    ensures ok ==> w.certified == old(w.certified) + LeaseAddresses(leases)
  {
    for i := 0 to |leases|
      invariant w.Steady(t) && old(w.history) <= w.history && !w.failed
      invariant w.certified == old(w.certified) + LeaseAddresses(leases[..i])
    {
      ok := w.SetupCertificates(leases[i].address);
      if !ok { return; }
      assert LeaseAddresses(leases[..i + 1]) == LeaseAddresses(leases[..i]) + {leases[i].address};
    }
    assert leases[..|leases|] == leases;
    ok := true;
  }

  lemma RegisteredNext(registrations: map<Ipv4, Registration>, leases: seq<Lease>, groups: seq<NodeGroup>, i: nat)
    requires i < |leases| == |groups|
    ensures Registered(registrations, leases[..i + 1], groups[..i + 1])
         == Registered(registrations, leases[..i], groups[..i])
              [leases[i].address := Registration(groups[i].serverGroup, groups[i].services)]
    ensures LeaseAddresses(leases[..i + 1]) == LeaseAddresses(leases[..i]) + {leases[i].address}
  {
    assert leases[..i + 1][..i] == leases[..i] && groups[..i + 1][..i] == groups[..i];
    assert leases[..i + 1] == leases[..i] + [leases[i]];
  }

  /** Registering one node keeps the promises if it has its certificate. `began` is an earlier history. */
  method RegisterNext(w: World, lease: Lease, registration: Registration, ghost t: Terms, ghost began: seq<Routing>)
    returns (ok: bool)
    requires w.Steady(t) && !w.failed && began <= w.history
    requires t.certs ==> lease.address in w.certified
    modifies w`failed, w`registrations, w`pending, w`history
    ensures w.Steady(t) && began <= w.history && w.failed == !ok
    ensures ok ==> w.pending == old(w.pending) + {lease.address}
    ensures ok ==> w.registrations == old(w.registrations)[lease.address := registration]
  {
    ok := w.RegisterNode(lease.address, registration);
  }

  method RegisterNodes(w: World, groups: seq<NodeGroup>, leases: seq<Lease>, ghost t: Terms) returns (ok: bool)
    requires |leases| == |groups|
    requires w.Steady(t) && !w.failed
    requires t.certs ==> LeaseAddresses(leases) <= w.certified
    modifies w`failed, w`registrations, w`pending, w`history
    ensures w.Steady(t) && old(w.history) <= w.history && w.failed == !ok
    ensures ok ==> w.pending == old(w.pending) + LeaseAddresses(leases)
    ensures ok ==> w.registrations == Registered(old(w.registrations), leases, groups)
  {
    for i := 0 to |leases|
      invariant w.Steady(t) && old(w.history) <= w.history && !w.failed
      invariant w.pending == old(w.pending) + LeaseAddresses(leases[..i])
      invariant w.registrations == Registered(old(w.registrations), leases[..i], groups[..i])
    {
      assert leases[i] in leases;
      RegisteredNext(old(w.registrations), leases, groups, i);
      ok := RegisterNext(w, leases[i], Registration(groups[i].serverGroup, groups[i].services), t, old(w.history));
      if !ok { return; }
    }
    assert leases[..|leases|] == leases && groups[..|groups|] == groups;
    ok := true;
  }

  /** Every new node was registered with its own group's server group and services. */
  lemma {:induction false} RegisteredAt(registrations: map<Ipv4, Registration>, leases: seq<Lease>,
                                        groups: seq<NodeGroup>, i: nat)
    requires i < |leases| == |groups| && DistinctLeases(leases)
    ensures leases[i].address in Registered(registrations, leases, groups)
    ensures Registered(registrations, leases, groups)[leases[i].address]
            == Registration(groups[i].serverGroup, groups[i].services)
  {
    var k := |leases| - 1;
    if i < k { RegisteredAt(registrations, leases[..k], groups[..k], i); }
  }

  lemma BalancersLast(nodes: seq<NodeInfo>, kind: NodeKind)
    requires nodes != []
    ensures var k := |nodes| - 1;
            BalancersOf(nodes, kind)
            == BalancersOf(nodes[..k], kind) + if nodes[k].kind == kind then {nodes[k].containerId} else {}
  {
  }

  /** Retargeting points each balancer of that kind at the targets and leaves the others alone. */
  lemma {:induction false} RetargetedAt(balancers: map<string, seq<Ipv4>>, nodes: seq<NodeInfo>, kind: NodeKind,
                                        targets: seq<Ipv4>)
    ensures Retargeted(balancers, nodes, kind, targets).Keys == balancers.Keys + BalancersOf(nodes, kind)
    ensures forall lb | lb in BalancersOf(nodes, kind) :: Retargeted(balancers, nodes, kind, targets)[lb] == targets
    ensures forall lb | lb in balancers && lb !in BalancersOf(nodes, kind) ::
              Retargeted(balancers, nodes, kind, targets)[lb] == balancers[lb]
  {
    if nodes == [] {
      assert BalancersOf(nodes, kind) == {};
    } else {
      var k := |nodes| - 1;
      RetargetedAt(balancers, nodes[..k], kind, targets);
      BalancersLast(nodes, kind);
    }
  }
}
