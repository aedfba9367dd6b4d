/** Applying a modified definition to a Docker cluster: reconcile, then add and remove nodes. */
module ModifyCluster {
  import opened Bags
  import opened Topology
  import opened ClusterDef
  import opened Membership
  import opened RoutingSteps
  import opened AddRemoveProtocol
  import opened Promises
  import opened Modification
  import opened Reconcile

  /** Columnar definitions may not choose services: every node runs these two. */
  function ColumnarGroups(groups: seq<NodeGroup>): (r: seq<NodeGroup>)
    ensures |r| == |groups|
            && forall i | 0 <= i < |r| :: r[i] == groups[i].(services := [KV_SERVICE, ANALYTICS_SERVICE])
  {
    seq(|groups|, i requires 0 <= i < |groups| => groups[i].(services := [KV_SERVICE, ANALYTICS_SERVICE]))
  }

  function EffectiveGroups(columnar: bool, groups: seq<NodeGroup>): seq<NodeGroup> {
    if columnar then ColumnarGroups(groups) else groups
  }

  lemma {:induction false} EffectiveTotals(columnar: bool, groups: seq<NodeGroup>)
    ensures WantedTotal(EffectiveGroups(columnar, groups)) == WantedTotal(groups)
  {
    if columnar && groups != [] {
      assert ColumnarGroups(groups)[1..] == ColumnarGroups(groups[1..]);
      EffectiveTotals(columnar, groups[1..]);
    }
  }

  /** Every entry of a columnar definition asks for the data and analytics services, whatever its groups say. */
  lemma ColumnarEntries(groups: seq<NodeGroup>, e: NodeGroup)
    requires e in Individualized(EffectiveGroups(true, groups))
    ensures e.services == ["kv", "cbas"]
  {
    EntriesFromGroups(ColumnarGroups(groups), e);
  }

  lemma {:induction false} EntriesFromGroups(groups: seq<NodeGroup>, e: NodeGroup)
    requires e in Individualized(groups)
    ensures exists g :: g in groups && e == g.(count := 1)
  {
    var k := |groups| - 1;
    if e in Individualized(groups[..k]) { EntriesFromGroups(groups[..k], e); } else { assert groups[k] in groups; }
  }

  ghost predicate ChoosesServices(groups: seq<NodeGroup>) {
    exists g :: g in groups && |g.services| != 0
  }

  method AssignColumnarServices(groups: seq<NodeGroup>) returns (ok: bool, chosen: seq<NodeGroup>)
    ensures ok <==> !ChoosesServices(groups)
    ensures ok ==> chosen == ColumnarGroups(groups)
  {
    chosen := [];
    for i := 0 to |groups|
      invariant chosen == ColumnarGroups(groups)[..i]
      invariant forall g | g in groups[..i] :: |g.services| == 0
    {
      if |groups[i].services| != 0 { return false, chosen; }
      chosen := chosen + [groups[i].(services := [KV_SERVICE, ANALYTICS_SERVICE])];
    }
    ok := true;
  }

  lemma {:induction false} ClusterNodesMember(nodes: seq<NodeInfo>)
    ensures forall n :: n in ClusterNodes(nodes) <==> n in nodes && n.IsClusterNode()
    ensures DistinctContainers(nodes) ==> forall n :: multiset(ClusterNodes(nodes))[n] <= 1
  {
    if nodes != [] {
      var k := |nodes| - 1;
      ClusterNodesMember(nodes[..k]);
      assert nodes == nodes[..k] + [nodes[k]];
      if DistinctContainers(nodes) && nodes[k].IsClusterNode() {
        var front := ClusterNodes(nodes[..k]);
        forall i | 0 <= i < k ensures nodes[..k][i] != nodes[k] {
          assert nodes[i].containerId != nodes[k].containerId;
        }
        assert multiset(front + [nodes[k]]) == multiset(front) + multiset{nodes[k]};
        assert multiset(front)[nodes[k]] == 0;
      }
    }
  }

  /** Removed nodes are cluster nodes of this cluster, and none of them is also kept. */
  lemma RemovedAreSpare(nodes: seq<NodeInfo>, wanted: seq<NodeGroup>, toAdd: seq<NodeGroup>, toRemove: seq<NodeInfo>,
                        pairs: seq<Pair>)
    requires DistinctContainers(nodes) && Conserved(ClusterNodes(nodes), wanted, toAdd, toRemove, pairs)
    ensures forall l | l in toRemove :: l in nodes && l.IsClusterNode()
    ensures forall n | n in PairedNodes(pairs) :: n in nodes && n !in toRemove
  {
    ClusterNodesMember(nodes);
    var all := multiset(ClusterNodes(nodes));
    forall l | l in toRemove ensures l in nodes && l.IsClusterNode() {
      assert l in multiset(toRemove) && l in all;
    }
    forall n | n in PairedNodes(pairs) ensures n in nodes && n !in toRemove {
      assert n in multiset(PairedNodes(pairs)) && n in all;
      assert multiset(toRemove)[n] + multiset(PairedNodes(pairs))[n] == all[n] <= 1;
      assert n !in multiset(toRemove);
    }
  }

  lemma FewerLeases(nodes: seq<NodeInfo>, leases: seq<Lease>, count: nat)
    requires FreshLeases(nodes, leases) && count <= |leases|
    ensures FreshLeases(nodes, leases[..count])
  {
  }

  /** What the reconciliation of `nodes` with `wanted` decided. */
  ghost predicate Reconciled(nodes: seq<NodeInfo>, wanted: seq<NodeGroup>, toAdd: seq<NodeGroup>,
                             toRemove: seq<NodeInfo>, pairs: seq<Pair>) {
    && Conserved(ClusterNodes(nodes), wanted, toAdd, toRemove, pairs)
    && Exhausted(toAdd, toRemove)
    && (forall p | p in pairs :: Reusable(p.node, p.entry))
    && (forall g, n | g in toAdd && n in toRemove :: !Reusable(n, g))
    && |pairs| == |NodeKeys(ClusterNodes(nodes)) * OpenKeys(wanted)|
    && |toAdd| == |wanted| - |pairs|
  }

  method ReconcileNodes(nodes: seq<NodeInfo>, groups: seq<NodeGroup>)
    returns (toAdd: seq<NodeGroup>, toRemove: seq<NodeInfo>, ghost pairs: seq<Pair>)
    requires DistinctContainers(nodes)
    ensures Reconciled(nodes, Individualized(groups), toAdd, toRemove, pairs) && Asks(Individualized(groups), groups)
    ensures forall l | l in toRemove :: l in nodes && l.IsClusterNode()
    ensures forall n | n in PairedNodes(pairs) :: n in nodes && n !in toRemove
  {
    var wanted := IndividualizeGroups(groups);
    var candidates := KeepClusterNodes(nodes);
    toAdd, toRemove, pairs := Match(candidates, wanted);
    RemovedAreSpare(nodes, wanted, toAdd, toRemove, pairs);
  }

  /** Utility nodes and reused nodes keep running. */
  ghost predicate KeepsRunning(nodes: seq<NodeInfo>, pairs: seq<Pair>, containers: seq<NodeInfo>) {
    && (forall n | n in nodes && !n.IsClusterNode() :: n in containers)
    && (forall n | n in PairedNodes(pairs) :: n in containers)
  }

  /** A reconciliation removes no balancer, and what it reuses is not removed. */
  lemma ReconciledKeeps(nodes: seq<NodeInfo>, toRemove: seq<NodeInfo>, pairs: seq<Pair>, adding: bool,
                        containers: seq<NodeInfo>)
    requires forall l | l in toRemove :: l in nodes && l.IsClusterNode()
    requires forall n | n in PairedNodes(pairs) :: n in nodes && n !in toRemove
    requires StayRunning(nodes, toRemove, containers)
    ensures KeepsRunning(nodes, pairs, containers) && !RemovesBalancer(adding, toRemove)
  {
  }

  // ----- what a modification means for the definition -----

  lemma ClusterNodesExtended(nodes: seq<NodeInfo>, last: NodeInfo, n: NodeInfo)
    ensures multiset(ClusterNodes(nodes + [last]))[n]
            == multiset(ClusterNodes(nodes))[n] + if last.IsClusterNode() && last == n then 1 else 0
  {
  }

  lemma {:induction false} KeepCounts(nodes: seq<NodeInfo>, leaving: seq<NodeInfo>, n: NodeInfo)
    ensures multiset(ClusterNodes(Keep(nodes, leaving)))[n]
            == if n in leaving then 0 else multiset(ClusterNodes(nodes))[n]
  {
    if nodes != [] {
      var front, last := nodes[..|nodes| - 1], nodes[|nodes| - 1];
      assert nodes == front + [last];
      KeepCounts(front, leaving, n);
      ClusterNodesExtended(front, last, n);
      ClusterNodesExtended(Keep(front, leaving), last, n);
      if last in leaving { assert Keep(nodes, leaving) == Keep(front, leaving); }
    }
  }

  lemma {:induction false} AllClusterNodes(nodes: seq<NodeInfo>, added: seq<NodeInfo>)
    requires forall n | n in added :: n.IsClusterNode()
    ensures ClusterNodes(nodes + added) == ClusterNodes(nodes) + added
  {
    if added == [] {
      assert nodes + added == nodes;
    } else {
      var k := |added| - 1;
      assert (nodes + added)[..|nodes + added| - 1] == nodes + added[..k];
      AllClusterNodes(nodes, added[..k]);
      assert added == added[..k] + [added[k]];
    }
  }

  /** The final cluster nodes are exactly the reused ones and the new ones. */
  lemma FinalClusterNodes(nodes: seq<NodeInfo>, added: seq<NodeInfo>, wanted: seq<NodeGroup>, toAdd: seq<NodeGroup>,
                          toRemove: seq<NodeInfo>, pairs: seq<Pair>)
    requires DistinctContainers(nodes) && Conserved(ClusterNodes(nodes), wanted, toAdd, toRemove, pairs)
    requires forall n | n in added :: n !in nodes && n.IsClusterNode()
    ensures multiset(ClusterNodes(Keep(nodes + added, toRemove))) == multiset(PairedNodes(pairs)) + multiset(added)
  {
    var kept := ClusterNodes(Keep(nodes, toRemove));
    RemovedAreSpare(nodes, wanted, toAdd, toRemove, pairs);
    ClusterNodesMember(nodes);
    KeepConcat(nodes, added, toRemove);
    KeepAll(added, toRemove);
    AllClusterNodes(Keep(nodes, toRemove), added);
    forall n ensures multiset(kept)[n] == multiset(PairedNodes(pairs))[n] {
      KeepCounts(nodes, toRemove, n);
      OneSide(multiset(ClusterNodes(nodes)), multiset(toRemove), multiset(PairedNodes(pairs)), n);
      assert n in toRemove <==> n in multiset(toRemove);
    }
    assert multiset(kept) == multiset(PairedNodes(pairs));
  }

  lemma OneSide(all: multiset<NodeInfo>, a: multiset<NodeInfo>, b: multiset<NodeInfo>, n: NodeInfo)
    requires all == a + b && all[n] <= 1
    ensures b[n] == if n in a then 0 else all[n]
  {
  }

  /** The cluster is what the definition asks for: its nodes correspond one to one to the entries - a reused node to an
      entry with its version and services, a new node to the entry whose version it runs and whose services and server
      group it was registered with. */
  ghost predicate Meets(containers: seq<NodeInfo>, registrations: map<Ipv4, Registration>, wanted: seq<NodeGroup>,
                        pairs: seq<Pair>, added: seq<NodeInfo>, toAdd: seq<NodeGroup>) {
    && multiset(ClusterNodes(containers)) == multiset(PairedNodes(pairs)) + multiset(added)
    && multiset(wanted) == multiset(PairedEntries(pairs)) + multiset(toAdd)
    && ValidPairs(pairs)
    && |added| == |toAdd|
    && forall i | 0 <= i < |added| ::
         && added[i].version == toAdd[i].version
         && added[i].address in registrations
         && registrations[added[i].address] == Registration(toAdd[i].serverGroup, toAdd[i].services)
  }

  /** A modification that succeeds meets the definition. */
  lemma ModifiedMeets(nodes: seq<NodeInfo>, registrations: map<Ipv4, Registration>, leases: seq<Lease>,
                      wanted: seq<NodeGroup>, toAdd: seq<NodeGroup>, toRemove: seq<NodeInfo>, pairs: seq<Pair>)
    requires |leases| == |toAdd| && DistinctContainers(nodes) && FreshLeases(nodes, leases)
    requires Conserved(ClusterNodes(nodes), wanted, toAdd, toRemove, pairs)
    ensures var added := DeployedNodes(leases, toAdd, IsColumnar(nodes));
            Meets(Keep(nodes + added, toRemove), Registered(registrations, leases, toAdd), wanted, pairs, added, toAdd)
  {
    var added := DeployedNodes(leases, toAdd, IsColumnar(nodes));
    forall n | n in added ensures n !in nodes && n.IsClusterNode() {
      var i :| 0 <= i < |added| && added[i] == n;
      assert leases[i] in leases;
    }
    FinalClusterNodes(nodes, added, wanted, toAdd, toRemove, pairs);
    forall i | 0 <= i < |added|
      ensures added[i].address in Registered(registrations, leases, toAdd)
      ensures Registered(registrations, leases, toAdd)[added[i].address]
              == Registration(toAdd[i].serverGroup, toAdd[i].services)
    {
      RegisteredAt(registrations, leases, toAdd, i);
    }
    BagsSwap(multiset(toAdd), multiset(PairedEntries(pairs)));
  }

  lemma BagsSwap(a: multiset<NodeGroup>, b: multiset<NodeGroup>)
    ensures a + b == b + a
  {
  }

  /** Nodes that did not answer report neither services nor a name. Then every removed cluster node was known exactly if
      every cluster node was: what costs a promise is any node that did not answer. */
  lemma KnownExactly(nodes: seq<NodeInfo>, wanted: seq<NodeGroup>, toAdd: seq<NodeGroup>, toRemove: seq<NodeInfo>,
                     pairs: seq<Pair>)
    requires DistinctContainers(nodes) && Conserved(ClusterNodes(nodes), wanted, toAdd, toRemove, pairs)
    requires forall n | n in nodes && n.IsClusterNode() && n.otp == "" :: n.services == []
    ensures AllKnown(toRemove) <==> AllKnown(nodes)
  {
    RemovedAreSpare(nodes, wanted, toAdd, toRemove, pairs);
    ClusterNodesMember(nodes);
    forall n | n in nodes && n.IsClusterNode() && n.otp == "" ensures n in toRemove {
      UnansweredAreRemoved(ClusterNodes(nodes), wanted, toAdd, toRemove, pairs, n);
    }
  }

  // ----- the modification -----

  /** How a modification ends: the groups were reconciled with the nodes, which is optimal; nodes that are reused and
      utility nodes kept running throughout; the nodes were added and removed; and on success the cluster meets the
      definition. */
  ghost predicate Modified(w: World, ok: bool, cluster: Cluster, start: Routing, registrations: map<Ipv4, Registration>,
                           groups: seq<NodeGroup>, leases: seq<Lease>, toAdd: seq<NodeGroup>, toRemove: seq<NodeInfo>,
                           pairs: seq<Pair>)
    reads w
  {
    && Reconciled(cluster.nodes, Individualized(groups), toAdd, toRemove, pairs) && Asks(Individualized(groups), groups)
    && KeepsRunning(cluster.nodes, pairs, w.containers)
    && |toAdd| <= |leases|
    && !RemovesBalancer(toAdd != [], toRemove)
    && Ends(w, ok, cluster, start, registrations, toAdd, toRemove, leases[..|toAdd|])
    && (ok ==> Meets(w.containers, w.registrations, Individualized(groups), pairs,
                     DeployedNodes(leases[..|toAdd|], toAdd, IsColumnar(cluster.nodes)), toAdd))
    && (ok ==> |ClusterNodes(w.containers)| == WantedTotal(groups))
  }

  lemma MeetsCounts(containers: seq<NodeInfo>, registrations: map<Ipv4, Registration>, wanted: seq<NodeGroup>,
                    pairs: seq<Pair>, added: seq<NodeInfo>, toAdd: seq<NodeGroup>)
    requires Meets(containers, registrations, wanted, pairs, added, toAdd)
    ensures |ClusterNodes(containers)| == |wanted|
  {
    PairedNodesLength(pairs);
    assert |multiset(ClusterNodes(containers))| == |ClusterNodes(containers)| && |multiset(wanted)| == |wanted|;
    assert |multiset(PairedNodes(pairs))| == |pairs| == |multiset(PairedEntries(pairs))|;
    assert |multiset(added)| == |added| == |toAdd| == |multiset(toAdd)|;
  }

  lemma IdleKeeps(nodes: seq<NodeInfo>, added: seq<NodeInfo>, toRemove: seq<NodeInfo>)
    ensures added == [] && toRemove == [] ==> Keep(nodes + added, toRemove) == nodes
  {
    KeepAll(nodes, []);
    if added == [] { assert nodes + added == nodes; }
  }

  method ApplyGroups(w: World, cluster: Cluster, groups: seq<NodeGroup>, leases: seq<Lease>)
    returns (ok: bool, ghost toAdd: seq<NodeGroup>, ghost toRemove: seq<NodeInfo>, ghost pairs: seq<Pair>)
    requires w.Startable(cluster)
    requires FreshLeases(cluster.nodes, leases) && |leases| >= WantedTotal(groups)
    modifies w
    ensures Modified(w, ok, cluster, old(w.Now()), old(w.registrations), groups, leases, toAdd, toRemove, pairs)
  {
    ghost var registrations := w.registrations;
    var add, remove;
    add, remove, pairs := ReconcileNodes(cluster.nodes, groups);
    toAdd, toRemove := add, remove;
    FewerLeases(cluster.nodes, leases, |add|);
    ModifiedMeets(cluster.nodes, registrations, leases[..|add|], Individualized(groups), add, remove, pairs);
    IdleKeeps(cluster.nodes, DeployedNodes(leases[..|add|], add, IsColumnar(cluster.nodes)), remove);
    var ids;
    ok, ids := AddRemoveNodes(w, cluster, add, remove, leases[..|add|]);
    ReconciledKeeps(cluster.nodes, remove, pairs, add != [], w.containers);
    if ok {
      MeetsCounts(w.containers, w.registrations, Individualized(groups), pairs,
                  DeployedNodes(leases[..|add|], add, IsColumnar(cluster.nodes)), add);
    }
  }

  /** Modifies a cluster, whatever an earlier run left behind. Nothing is touched if the definition has no groups, or
      chooses services for a columnar cluster; otherwise the outcome is that of its groups. */
  method ModifyCluster(w: World, cluster: Cluster, columnar: bool, groups: seq<NodeGroup>, leases: seq<Lease>)
    returns (ok: bool, ghost toAdd: seq<NodeGroup>, ghost toRemove: seq<NodeInfo>, ghost pairs: seq<Pair>)
    requires w.Startable(cluster)
    requires FreshLeases(cluster.nodes, leases) && |leases| >= WantedTotal(groups)
    modifies w
    ensures (columnar && ChoosesServices(groups)) || groups == []
            ==> w.Now() == old(w.Now()) && w.containers == old(w.containers)
    ensures columnar && ChoosesServices(groups) ==> !ok
    ensures !(columnar && ChoosesServices(groups)) && groups == [] ==> ok == !w.failed
    ensures !(columnar && ChoosesServices(groups)) && groups != [] ==>
              || (!ok && w.failed && w.Now() == old(w.Now()) && w.containers == old(w.containers))
              || Modified(w, ok, cluster, old(w.Now()), old(w.registrations), EffectiveGroups(columnar, groups), leases,
                          toAdd, toRemove, pairs)
    ensures ok && groups != [] ==> |ClusterNodes(w.containers)| == WantedTotal(groups)
  {
    toAdd, toRemove, pairs := [], [], [];
    EffectiveTotals(columnar, groups);
    var effective := groups;
    if columnar {
      ok, effective := AssignColumnarServices(groups);
      if !ok { return; }
    }
    ok := w.Attempt();  // find the cluster and ask its nodes what they run
    if !ok || |groups| == 0 { return; }
    ok, toAdd, toRemove, pairs := ApplyGroups(w, cluster, effective, leases);
  }
}
