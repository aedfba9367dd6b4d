/** What a run of additions and removals promises: for every promise, the exact condition under which it is kept. */
module Promises {
  import opened Topology
  import opened ClusterDef
  import opened Membership
  import opened RoutingSteps
  import opened AddRemoveProtocol

  ghost predicate FreshLeases(nodes: seq<NodeInfo>, leases: seq<Lease>) {
    && DistinctLeases(leases)
    && forall n, l | n in nodes && l in leases :: n.containerId != l.containerId && n.address != l.address
  }

  lemma DeployedAreDistinct(nodes: seq<NodeInfo>, leases: seq<Lease>, groups: seq<NodeGroup>, columnar: bool)
    requires |leases| == |groups| && Distinct(nodes) && FreshLeases(nodes, leases)
    ensures Distinct(nodes + DeployedNodes(leases, groups, columnar))
    ensures forall n | n in DeployedNodes(leases, groups, columnar) :: n !in nodes && n.IsClusterNode()
    ensures MemberAddresses(DeployedNodes(leases, groups, columnar)) == LeaseAddresses(leases)
  {
  }

  /** Ejecting the OTP names of the leaving nodes ejects no node that stays. */
  lemma EjectedAreLeaving(nodes: seq<NodeInfo>, toRemove: seq<NodeInfo>, n: NodeInfo)
    requires DistinctOtps(nodes) && forall l | l in toRemove :: l in nodes
    requires n in nodes && n.otp != "" && n.otp in OtpsOf(toRemove)
    ensures n in toRemove
  {
    OtpsOfContains(toRemove);
    var l :| l in toRemove && l.otp == n.otp;
    var i :| 0 <= i < |nodes| && nodes[i] == n;
    var j :| 0 <= j < |nodes| && nodes[j] == l;
  }

  lemma SameAddressSameNode(nodes: seq<NodeInfo>, m: NodeInfo, n: NodeInfo)
    requires DistinctAddresses(nodes) && m in nodes && n in nodes && m.address == n.address
    ensures m == n
  {
  }

  lemma SameContainerSameNode(nodes: seq<NodeInfo>, m: NodeInfo, n: NodeInfo)
    requires DistinctContainers(nodes) && m in nodes && n in nodes && m.containerId == n.containerId
    ensures m == n
  {
  }

  lemma LeavingAreIdentified(nodes: seq<NodeInfo>, toRemove: seq<NodeInfo>)
    requires Distinct(nodes) && forall l | l in toRemove :: l in nodes
    ensures Identifies(nodes, toRemove)
  {
  }

  /** No address that is kept is ejected. */
  lemma KeptAreNotEjected(nodes: seq<NodeInfo>, toRemove: seq<NodeInfo>, a: Ipv4)
    requires Distinct(nodes) && forall l | l in toRemove :: l in nodes
    requires a in MemberAddresses(Keep(nodes, toRemove))
    ensures a in MemberAddresses(nodes) - Ejected(nodes, OtpsOf(toRemove))
  {
    KeepKeeps(nodes, toRemove);
    var n :| n in Keep(nodes, toRemove) && n.IsClusterNode() && n.address == a;
    if a in Ejected(nodes, OtpsOf(toRemove)) {
      var e :| e in nodes && e.IsClusterNode() && e.otp != "" && e.otp in OtpsOf(toRemove) && e.address == a;
      EjectedAreLeaving(nodes, toRemove, e);
      SameAddressSameNode(nodes, e, n);
    }
  }

  // ----- addresses -----

  /** The nodes to add and remove fit the cluster. */
  ghost predicate Fits(nodes: seq<NodeInfo>, added: seq<NodeInfo>, toRemove: seq<NodeInfo>) {
    && Distinct(nodes) && Distinct(nodes + added)
    && (forall n | n in added :: n !in nodes && n.IsClusterNode())
    && (forall l | l in toRemove :: l in nodes)
  }

  lemma AddedAddresses(nodes: seq<NodeInfo>, added: seq<NodeInfo>, toRemove: seq<NodeInfo>)
    requires Fits(nodes, added, toRemove)
    ensures MemberAddresses(nodes + added) == MemberAddresses(nodes) + MemberAddresses(added)
    ensures MemberAddresses(Keep(nodes + added, toRemove))
            == MemberAddresses(Keep(nodes, toRemove)) + MemberAddresses(added)
    ensures MemberAddresses(added) !! MemberAddresses(nodes)
  {
    AddedAreNew(nodes, added);
    KeepConcat(nodes, added, toRemove);
    KeepAll(added, toRemove);
  }

  /** How the addresses of the nodes that stay, leave and join relate. */
  lemma AddressFacts(nodes: seq<NodeInfo>, added: seq<NodeInfo>, toRemove: seq<NodeInfo>)
    requires Fits(nodes, added, toRemove)
    ensures var N, A, K, E := MemberAddresses(nodes), MemberAddresses(added), MemberAddresses(Keep(nodes, toRemove)),
            Ejected(nodes, OtpsOf(toRemove));
            && MemberAddresses(nodes + added) == N + A
            && MemberAddresses(Keep(nodes + added, toRemove)) == K + A
            && K <= N && E <= N && K !! E && A !! N
            && (toRemove == [] ==> K == N && E == {})
  {
    AddedAddresses(nodes, added, toRemove);
    KeepKeeps(nodes, toRemove);
    if toRemove == [] { KeepAll(nodes, toRemove); }
    forall a | a in MemberAddresses(Keep(nodes, toRemove)) ensures a !in Ejected(nodes, OtpsOf(toRemove)) {
      KeptAreNotEjected(nodes, toRemove, a);
    }
  }

  /** A leaving node's address is nobody else's. */
  lemma LeavingAddress(nodes: seq<NodeInfo>, added: seq<NodeInfo>, toRemove: seq<NodeInfo>, n: NodeInfo)
    requires Fits(nodes, added, toRemove) && n in toRemove
    ensures n.address !in MemberAddresses(Keep(nodes + added, toRemove))
  {
    KeepKeeps(nodes + added, toRemove);
    if n.address in MemberAddresses(Keep(nodes + added, toRemove)) {
      var m :| m in Keep(nodes + added, toRemove) && m.address == n.address;
      SameAddressSameNode(nodes + added, m, n);
    }
  }

  lemma AddedAreNew(nodes: seq<NodeInfo>, added: seq<NodeInfo>)
    requires DistinctAddresses(nodes + added) && forall n | n in added :: n !in nodes
    ensures MemberAddresses(added) !! MemberAddresses(nodes)
  {
    forall a | a in MemberAddresses(added) ensures a !in MemberAddresses(nodes) {
      if a in MemberAddresses(nodes) {
        var m :| m in added && m.address == a;
        var n :| n in nodes && n.address == a;
        SameAddressSameNode(nodes + added, m, n);
      }
    }
  }

  // ----- the conditions -----

  /** Everyone who is listed afterwards is a member by then: nodes that stay are members already, or join in the
      rebalance before anything is listed. */
  ghost predicate Followed(r: Routing, nodes: seq<NodeInfo>, toRemove: seq<NodeInfo>) {
    MemberAddresses(Keep(nodes, toRemove)) <= if toRemove == [] then r.members + r.pending else r.members
  }

  /** Everyone who is a member afterwards has a container: whoever is, or waits to be, a member and is not ejected
      stays or is new. */
  ghost predicate Accounted(r: Routing, nodes: seq<NodeInfo>, added: seq<NodeInfo>, toRemove: seq<NodeInfo>) {
    (r.members + r.pending) - Ejected(nodes, OtpsOf(toRemove)) <= MemberAddresses(Keep(nodes + added, toRemove))
  }

  /** Whoever waits to join is a target of every active balancer already. */
  ghost predicate Awaited(r: Routing, nodes: seq<NodeInfo>, toRemove: seq<NodeInfo>) {
    forall lb, a | lb in r.active && a in r.pending - Ejected(nodes, OtpsOf(toRemove)) :: a in r.active[lb]
  }

  /** Which promises a run that starts with routing `r` keeps at every step. */
  ghost function TermsOf(r: Routing, cluster: Cluster, added: seq<NodeInfo>, toRemove: seq<NodeInfo>): Terms {
    var nodes := cluster.nodes;
    var idle := added == [] && toRemove == [];
    Terms(
      PassiveWithin(r) && (idle || BalancersOf(nodes, Nginx) == {} || Followed(r, nodes, toRemove)),
      cluster.ListsNodes() && DnsWithin(r) && (idle || !cluster.dnsEnabled || Followed(r, nodes, toRemove)),
      ActiveCovers(r) && (idle || BalancersOf(nodes, Haproxy) == {}
                          || (Accounted(r, nodes, added, toRemove) && (added != [] || Awaited(r, nodes, toRemove)))),
      r.members <= r.running && (idle || Accounted(r, nodes, added, toRemove)),
      cluster.usingCerts && r.pending <= r.certified)
  }

  /** The address belongs to a node of the cluster or a new one, and if that node is removed, it had reported its OTP
      name. */
  ghost predicate HasPlace(nodes: seq<NodeInfo>, toRemove: seq<NodeInfo>, a: Ipv4) {
    exists n :: n in nodes && n.IsClusterNode() && n.address == a && (n in toRemove ==> n.otp != "")
  }

  lemma RemainsOrKnown(nodes: seq<NodeInfo>, added: seq<NodeInfo>, toRemove: seq<NodeInfo>, a: Ipv4)
    requires Fits(nodes, added, toRemove)
    ensures a in Ejected(nodes, OtpsOf(toRemove)) || a in MemberAddresses(Keep(nodes + added, toRemove))
            <==> HasPlace(nodes + added, toRemove, a)
  {
    KeepKeeps(nodes + added, toRemove);
    OtpsOfContains(toRemove);
    if a in Ejected(nodes, OtpsOf(toRemove)) {
      var n :| n in nodes && n.IsClusterNode() && n.otp != "" && n.otp in OtpsOf(toRemove) && n.address == a;
      assert n in nodes + added;
    } else if a in MemberAddresses(Keep(nodes + added, toRemove)) {
      var n :| n in Keep(nodes + added, toRemove) && n.IsClusterNode() && n.address == a;
    }
  }

  /** In terms of nodes: everyone who is or waits to be a member belongs to a node that is not removed, or that had
      reported its OTP name. */
  lemma AccountedMeans(r: Routing, nodes: seq<NodeInfo>, added: seq<NodeInfo>, toRemove: seq<NodeInfo>)
    requires Fits(nodes, added, toRemove)
    ensures Accounted(r, nodes, added, toRemove)
            <==> forall a | a in r.members + r.pending :: HasPlace(nodes + added, toRemove, a)
  {
    forall a | a in r.members + r.pending
      ensures a in Ejected(nodes, OtpsOf(toRemove)) || a in MemberAddresses(Keep(nodes + added, toRemove))
              <==> HasPlace(nodes + added, toRemove, a)
    {
      RemainsOrKnown(nodes, added, toRemove, a);
    }
  }

  /** Where the last run completed and every member answered, nothing but the OTP names of the removed nodes matters. */
  lemma AccountedWhenSettled(r: Routing, nodes: seq<NodeInfo>, added: seq<NodeInfo>, toRemove: seq<NodeInfo>)
    requires Fits(nodes, added, toRemove) && r.members == MemberAddresses(nodes) && r.pending == {}
    ensures Accounted(r, nodes, added, toRemove) <==> AllKnown(toRemove)
    ensures Followed(r, nodes, toRemove) && Awaited(r, nodes, toRemove)
  {
    AddressFacts(nodes, added, toRemove);
    AccountedMeans(r, nodes, added, toRemove);
    if AllKnown(toRemove) {
      forall a | a in r.members + r.pending ensures HasPlace(nodes + added, toRemove, a) {
        var n :| n in nodes && n.IsClusterNode() && n.address == a;
        assert n in nodes + added;
      }
    }
    if Accounted(r, nodes, added, toRemove) {
      forall n | n in toRemove && n.IsClusterNode() ensures n.otp != "" {
        assert n.address in r.members + r.pending;
        var m :| m in nodes + added && m.IsClusterNode() && m.address == n.address && (m in toRemove ==> m.otp != "");
        SameAddressSameNode(nodes + added, m, n);
      }
    }
  }

  // ----- balancers -----

  lemma AllRetargeted(balancers: map<string, seq<Ipv4>>, nodes: seq<NodeInfo>, kind: NodeKind, targets: seq<Ipv4>)
    requires balancers.Keys == BalancersOf(nodes, kind)
    ensures Retargeted(balancers, nodes, kind, targets).Keys == balancers.Keys
    ensures forall lb | lb in balancers :: Retargeted(balancers, nodes, kind, targets)[lb] == targets
  {
    RetargetedAt(balancers, nodes, kind, targets);
  }

  lemma SurvivingBalancers(nodes: seq<NodeInfo>, added: seq<NodeInfo>, toRemove: seq<NodeInfo>, kind: NodeKind)
    requires DistinctContainers(nodes) && forall l | l in toRemove :: l in nodes
    requires forall n | n in added :: n.kind != kind
    ensures BalancersOf(Keep(nodes + added, toRemove), kind) == BalancersOf(nodes, kind) - ContainersOf(toRemove)
    ensures (forall n | n in toRemove :: n.kind != kind) <==> BalancersOf(nodes, kind) !! ContainersOf(toRemove)
  {
    KeepKeeps(nodes + added, toRemove);
    forall n, l | n in nodes && l in toRemove && n.containerId == l.containerId ensures n == l {
      SameContainerSameNode(nodes, n, l);
    }
    forall n | n in toRemove && n.kind == kind
      ensures n.containerId in BalancersOf(nodes, kind) && n.containerId in ContainersOf(toRemove)
    {
    }
  }

  /** Two rounds of updates around the removal leave every surviving balancer of a kind on the final targets. */
  lemma FinalBalancers(before: map<string, seq<Ipv4>>, nodes: seq<NodeInfo>, added: seq<NodeInfo>,
                       toRemove: seq<NodeInfo>, kind: NodeKind, first: bool, second: bool, firstTargets: seq<Ipv4>,
                       targets: seq<Ipv4>)
    requires DistinctContainers(nodes) && forall l | l in toRemove :: l in nodes
    requires before.Keys == BalancersOf(nodes, kind) && forall n | n in added :: n.kind != kind
    requires first || second
    requires second ==> forall n | n in toRemove :: n.kind != kind
    requires !second ==> firstTargets == targets
    ensures var routed := if first then Retargeted(before, nodes, kind, firstTargets) else before;
            var after := Dropped(routed, toRemove);
            var end := if second then Retargeted(after, nodes, kind, targets) else after;
            && end.Keys == BalancersOf(Keep(nodes + added, toRemove), kind)
            && forall lb | lb in end :: end[lb] == targets
  {
    var routed := if first then Retargeted(before, nodes, kind, firstTargets) else before;
    RetargetedAt(before, nodes, kind, firstTargets);
    RetargetedAt(Dropped(routed, toRemove), nodes, kind, targets);
    DroppedAt(routed, toRemove);
    SurvivingBalancers(nodes, added, toRemove, kind);
  }

  // ----- the checkpoints of a run -----

  /** The addresses of the leaving nodes identify them. */
  lemma LeavingByAddress(nodes: seq<NodeInfo>, toRemove: seq<NodeInfo>)
    requires Distinct(nodes) && forall l | l in toRemove :: l in nodes
    ensures WithoutAddresses(nodes, AddressesOf(toRemove)) == Keep(nodes, toRemove)
  {
    LeavingAreIdentified(nodes, toRemove);
    KeepByAddress(nodes, toRemove);
  }

  lemma NoRoundSkipped(nodes: seq<NodeInfo>, added: seq<NodeInfo>, toRemove: seq<NodeInfo>)
    requires Distinct(nodes) && forall l | l in toRemove :: l in nodes
    ensures toRemove == [] ==> Keep(nodes + added, toRemove) == nodes + added
    ensures added == [] ==> Keep(nodes + added, toRemove) == Keep(nodes, toRemove)
  {
    if toRemove == [] { KeepAll(nodes + added, toRemove); }
    if added == [] { assert nodes + added == nodes; }
  }

  /** What a run starts from: every balancer container has a configuration, and DNS holds no other records than an
      update would write. */
  ghost predicate Wired(r: Routing, cluster: Cluster) {
    && r.active.Keys == BalancersOf(cluster.nodes, Haproxy)
    && r.passive.Keys == BalancersOf(cluster.nodes, Nginx)
    && r.dns.Keys <= if cluster.dnsEnabled then RecordKinds(IsColumnar(cluster.nodes)) else {}
  }

  ghost predicate Starts(r: Routing, cluster: Cluster, added: seq<NodeInfo>, toRemove: seq<NodeInfo>) {
    && Wired(r, cluster) && Fits(cluster.nodes, added, toRemove)
    && r.running == MemberAddresses(cluster.nodes) && (added != [] || toRemove != [])
    && IsColumnar(cluster.nodes + added) == IsColumnar(cluster.nodes)
    && (added != [] ==> IsColumnar(Keep(cluster.nodes + added, toRemove)) == IsColumnar(cluster.nodes))
  }

  /** The new nodes run and wait to join. */
  ghost function Prepared(r: Routing, cluster: Cluster, added: seq<NodeInfo>): Routing {
    r.(running := MemberAddresses(cluster.nodes + added), pending := r.pending + MemberAddresses(added),
       certified := r.certified + if cluster.usingCerts then MemberAddresses(added) else {})
  }

  /** Traffic is ready for the rebalance. */
  ghost function Away(r: Routing, cluster: Cluster, added: seq<NodeInfo>, toRemove: seq<NodeInfo>): Routing {
    RoutedAway(Prepared(r, cluster, added), cluster, ClusterAddresses(cluster.nodes + added), added != [], toRemove)
  }

  /** The rebalance is over. */
  ghost function Shifted(r: Routing, cluster: Cluster, added: seq<NodeInfo>, toRemove: seq<NodeInfo>): Routing {
    Rebalanced(Away(r, cluster, added, toRemove), Ejected(cluster.nodes, OtpsOf(toRemove)))
  }

  /** The containers of the leaving nodes are gone. */
  ghost function Stripped(r: Routing, nodes: seq<NodeInfo>, toRemove: seq<NodeInfo>): Routing {
    r.(running := MemberAddresses(Keep(nodes, toRemove)),
       active := Dropped(r.active, toRemove), passive := Dropped(r.passive, toRemove))
  }

  /** What the last updates start from. */
  ghost function Cleared(r: Routing, cluster: Cluster, added: seq<NodeInfo>, toRemove: seq<NodeInfo>): Routing {
    Stripped(Shifted(r, cluster, added, toRemove), cluster.nodes + added, toRemove)
  }

  /** The routing after a run in which nothing failed. */
  ghost function Moved(r: Routing, cluster: Cluster, added: seq<NodeInfo>, toRemove: seq<NodeInfo>): Routing {
    var all := cluster.nodes + added;
    RoutedBack(Cleared(r, cluster, added, toRemove), cluster, Keep(all, toRemove), added != [], toRemove != [])
  }

  /** Who is a member once the rebalance is over. */
  lemma ShiftedMembers(r: Routing, cluster: Cluster, added: seq<NodeInfo>, toRemove: seq<NodeInfo>)
    requires Fits(cluster.nodes, added, toRemove)
    ensures Shifted(r, cluster, added, toRemove).members
         == ((r.members + r.pending) - Ejected(cluster.nodes, OtpsOf(toRemove))) + MemberAddresses(added)
    ensures Shifted(r, cluster, added, toRemove).pending == {}
  {
    AddressFacts(cluster.nodes, added, toRemove);
  }

  /** The members are exactly the nodes that stay plus the new ones if and only if everyone who stays was a member or
      waited to become one, and everyone who remains a member has a container. */
  lemma MembersExactly(r: Routing, cluster: Cluster, added: seq<NodeInfo>, toRemove: seq<NodeInfo>)
    requires Fits(cluster.nodes, added, toRemove)
    ensures Shifted(r, cluster, added, toRemove).members == MemberAddresses(Keep(cluster.nodes + added, toRemove))
       <==> Accounted(r, cluster.nodes, added, toRemove)
            && MemberAddresses(Keep(cluster.nodes, toRemove)) <= r.members + r.pending
    ensures Shifted(r, cluster, added, toRemove).members <= MemberAddresses(Keep(cluster.nodes + added, toRemove))
       <==> Accounted(r, cluster.nodes, added, toRemove)
  {
    AddressFacts(cluster.nodes, added, toRemove);
    ShiftedMembers(r, cluster, added, toRemove);
  }

  // ----- the conditions suffice -----

  lemma PreparedIsSafe(r: Routing, cluster: Cluster, added: seq<NodeInfo>, toRemove: seq<NodeInfo>)
    requires Starts(r, cluster, added, toRemove)
    ensures Safe(r, TermsOf(r, cluster, added, toRemove))
    ensures Safe(Prepared(r, cluster, added), TermsOf(r, cluster, added, toRemove))
  {
  }

  /** The first updates list members only and cover every member. */
  lemma MayRouteAway(r: Routing, cluster: Cluster, added: seq<NodeInfo>, toRemove: seq<NodeInfo>)
    requires Starts(r, cluster, added, toRemove)
    ensures var s, t := Prepared(r, cluster, added), TermsOf(r, cluster, added, toRemove);
            && (added != [] ==> MayCover(s, cluster, cluster.nodes + added, t))
            && (toRemove != [] ==> MayList(s, cluster, WithoutAddresses(cluster.nodes, AddressesOf(toRemove)), t))
  {
    AddressFacts(cluster.nodes, added, toRemove);
    LeavingByAddress(cluster.nodes, toRemove);
  }

  /** The last updates do, too. */
  lemma MayRouteBack(r: Routing, cluster: Cluster, added: seq<NodeInfo>, toRemove: seq<NodeInfo>)
    requires Starts(r, cluster, added, toRemove)
    ensures var s, t, final := Shifted(r, cluster, added, toRemove), TermsOf(r, cluster, added, toRemove),
            Keep(cluster.nodes + added, toRemove);
            && (added != [] ==> MayList(s, cluster, final, t))
            && (toRemove != [] ==> MayCover(s, cluster, final, t))
  {
    AddressFacts(cluster.nodes, added, toRemove);
    ShiftedMembers(r, cluster, added, toRemove);
  }

  /** The containers that are removed are no member's. */
  lemma RemovedAreNoMembers(r: Routing, cluster: Cluster, added: seq<NodeInfo>, toRemove: seq<NodeInfo>)
    requires Starts(r, cluster, added, toRemove) && Accounted(r, cluster.nodes, added, toRemove)
    ensures forall n | n in toRemove && n.IsClusterNode() :: n.address !in Shifted(r, cluster, added, toRemove).members
  {
    MembersExactly(r, cluster, added, toRemove);
    forall n | n in toRemove && n.IsClusterNode() ensures n.address !in Shifted(r, cluster, added, toRemove).members {
      LeavingAddress(cluster.nodes, added, toRemove, n);
    }
  }

  /** Every active balancer lists all nodes after an addition, and what it listed before otherwise. */
  lemma AwayActive(r: Routing, cluster: Cluster, added: seq<NodeInfo>, toRemove: seq<NodeInfo>)
    requires Wired(r, cluster)
    ensures var s := Away(r, cluster, added, toRemove);
            && s.active.Keys == r.active.Keys
            && (added == [] ==> s.active == r.active)
            && (added != [] ==> forall lb | lb in s.active :: s.active[lb] == ClusterAddresses(cluster.nodes + added))
  {
    AllRetargeted(r.active, cluster.nodes, Haproxy, ClusterAddresses(cluster.nodes + added));
  }

  lemma WaitingAreListed(r: Routing, cluster: Cluster, added: seq<NodeInfo>, toRemove: seq<NodeInfo>, lb: string,
                         a: Ipv4)
    requires TermsOf(r, cluster, added, toRemove).covering && Wired(r, cluster) && toRemove != [] && added == []
             && lb in r.active
    requires a in r.members || a in r.pending - Ejected(cluster.nodes, OtpsOf(toRemove))
    ensures a in r.active[lb]
  {
  }

  lemma JoiningAreListed(r: Routing, cluster: Cluster, added: seq<NodeInfo>, toRemove: seq<NodeInfo>, lb: string,
                         a: Ipv4)
    requires Starts(r, cluster, added, toRemove) && TermsOf(r, cluster, added, toRemove).covering && added != []
             && lb in r.active
    requires a in r.members || a in (r.pending + MemberAddresses(added)) - Ejected(cluster.nodes, OtpsOf(toRemove))
    ensures a in MemberAddresses(cluster.nodes + added)
  {
    AddressFacts(cluster.nodes, added, toRemove);
    assert lb in BalancersOf(cluster.nodes, Haproxy);
    if a !in Ejected(cluster.nodes, OtpsOf(toRemove)) && a !in MemberAddresses(added) {
      assert a in (r.members + r.pending) - Ejected(cluster.nodes, OtpsOf(toRemove));
    }
  }

  lemma CoveredAway(r: Routing, cluster: Cluster, added: seq<NodeInfo>, toRemove: seq<NodeInfo>, lb: string, a: Ipv4)
    requires Starts(r, cluster, added, toRemove) && TermsOf(r, cluster, added, toRemove).covering && lb in r.active
    requires a in r.members || a in (r.pending + MemberAddresses(added)) - Ejected(cluster.nodes, OtpsOf(toRemove))
    ensures lb in Away(r, cluster, added, toRemove).active && a in Away(r, cluster, added, toRemove).active[lb]
  {
    AwayActive(r, cluster, added, toRemove);
    if added != [] {
      AddressesAreMembers(cluster.nodes + added);
      JoiningAreListed(r, cluster, added, toRemove, lb, a);
    } else {
      assert MemberAddresses(added) == {};
      WaitingAreListed(r, cluster, added, toRemove, lb, a);
    }
  }

  lemma AwayCovers(r: Routing, cluster: Cluster, added: seq<NodeInfo>, toRemove: seq<NodeInfo>)
    requires Starts(r, cluster, added, toRemove) && TermsOf(r, cluster, added, toRemove).covering
    ensures var s := Away(r, cluster, added, toRemove);
            forall lb, a | lb in s.active && a in s.members + (s.pending - Ejected(cluster.nodes, OtpsOf(toRemove))) ::
                a in s.active[lb]
  {
    var s := Away(r, cluster, added, toRemove);
    AwayActive(r, cluster, added, toRemove);
    forall lb, a | lb in s.active && a in s.members + (s.pending - Ejected(cluster.nodes, OtpsOf(toRemove)))
      ensures a in s.active[lb]
    {
      CoveredAway(r, cluster, added, toRemove, lb, a);
    }
  }

  /** An update leaves no other address behind in records that list nodes. */
  lemma PublishedListsOnly(dns: map<RecordKind, seq<RecordData>>, cluster: Cluster, addresses: seq<Ipv4>)
    requires cluster.ListsNodes()
    requires dns.Keys <= if cluster.dnsEnabled then RecordKinds(IsColumnar(cluster.nodes)) else {}
    ensures var after := Published(dns, cluster, IsColumnar(cluster.nodes), addresses);
            forall k, d | k in after && d in after[k] :: d.address in addresses
  {
    RecordsAreKinds(addresses, IsColumnar(cluster.nodes), cluster.BalancerAddress());
  }

  /** Passive balancers and DNS are pointed at the nodes that stay, if some are to be removed. */
  lemma AwayParts(r: Routing, cluster: Cluster, added: seq<NodeInfo>, toRemove: seq<NodeInfo>)
    requires Fits(cluster.nodes, added, toRemove)
    ensures var s, kept := Away(r, cluster, added, toRemove), ClusterAddresses(Keep(cluster.nodes, toRemove));
            && s.members == r.members
            && s.passive == (if toRemove == [] then r.passive else Retargeted(r.passive, cluster.nodes, Nginx, kept))
            && s.dns == (if toRemove == [] then r.dns else Published(r.dns, cluster, IsColumnar(cluster.nodes), kept))
  {
    LeavingByAddress(cluster.nodes, toRemove);
  }

  /** Passive balancers list exactly the nodes that stay once some are to be removed. */
  lemma AwayPassive(r: Routing, cluster: Cluster, added: seq<NodeInfo>, toRemove: seq<NodeInfo>)
    requires Wired(r, cluster) && Fits(cluster.nodes, added, toRemove)
    ensures var s := Away(r, cluster, added, toRemove);
            && s.passive.Keys == r.passive.Keys && s.members == r.members
            && (toRemove == [] ==> s.passive == r.passive)
            && (toRemove != [] ==>
                forall lb | lb in s.passive :: s.passive[lb] == ClusterAddresses(Keep(cluster.nodes, toRemove)))
  {
    AwayParts(r, cluster, added, toRemove);
    AllRetargeted(r.passive, cluster.nodes, Nginx, ClusterAddresses(Keep(cluster.nodes, toRemove)));
  }

  lemma StayingAway(r: Routing, cluster: Cluster, added: seq<NodeInfo>, toRemove: seq<NodeInfo>, lb: string, a: Ipv4)
    requires Starts(r, cluster, added, toRemove) && TermsOf(r, cluster, added, toRemove).passive && toRemove != []
    requires lb in r.passive && a in MemberAddresses(Keep(cluster.nodes, toRemove))
    ensures a in r.members && a !in Ejected(cluster.nodes, OtpsOf(toRemove))
  {
    AddressFacts(cluster.nodes, added, toRemove);
    assert lb in BalancersOf(cluster.nodes, Nginx);
  }

  lemma AwayPassiveStaying(r: Routing, cluster: Cluster, added: seq<NodeInfo>, toRemove: seq<NodeInfo>)
    requires Starts(r, cluster, added, toRemove) && TermsOf(r, cluster, added, toRemove).passive
    ensures var s := Away(r, cluster, added, toRemove);
            forall lb, a | lb in s.passive && a in s.passive[lb] ::
                a in s.members - Ejected(cluster.nodes, OtpsOf(toRemove))
  {
    var s, kept := Away(r, cluster, added, toRemove), Keep(cluster.nodes, toRemove);
    AwayPassive(r, cluster, added, toRemove);
    AddressesAreMembers(kept);
    if toRemove == [] {
      assert Ejected(cluster.nodes, OtpsOf(toRemove)) == {};
    } else {
      forall lb, a | lb in s.passive && a in s.passive[lb]
        ensures a in s.members - Ejected(cluster.nodes, OtpsOf(toRemove))
      {
        StayingAway(r, cluster, added, toRemove, lb, a);
      }
    }
  }

  lemma AwayListsStaying(r: Routing, cluster: Cluster, added: seq<NodeInfo>, toRemove: seq<NodeInfo>)
    requires Starts(r, cluster, added, toRemove) && TermsOf(r, cluster, added, toRemove).listing
    ensures var s := Away(r, cluster, added, toRemove);
            forall k, d | k in s.dns && d in s.dns[k] ::
                d.address in s.members - Ejected(cluster.nodes, OtpsOf(toRemove))
  {
    var kept := Keep(cluster.nodes, toRemove);
    AddressFacts(cluster.nodes, added, toRemove);
    AwayParts(r, cluster, added, toRemove);
    AddressesAreMembers(kept);
    if toRemove != [] { PublishedListsOnly(r.dns, cluster, ClusterAddresses(kept)); }
  }

  /** Once routed away, the cluster can be rebalanced. */
  lemma ReadyAfterRouteAway(r: Routing, cluster: Cluster, added: seq<NodeInfo>, toRemove: seq<NodeInfo>)
    requires Starts(r, cluster, added, toRemove)
    ensures ReadyToRebalance(Away(r, cluster, added, toRemove), TermsOf(r, cluster, added, toRemove),
                             Ejected(cluster.nodes, OtpsOf(toRemove)))
  {
    AddressFacts(cluster.nodes, added, toRemove);
    if TermsOf(r, cluster, added, toRemove).passive { AwayPassiveStaying(r, cluster, added, toRemove); }
    if TermsOf(r, cluster, added, toRemove).listing { AwayListsStaying(r, cluster, added, toRemove); }
    if TermsOf(r, cluster, added, toRemove).covering { AwayCovers(r, cluster, added, toRemove); }
  }

  // ----- where a completed run ends -----

  /** All balancers of this kind, and no others, target exactly these addresses. */
  ghost predicate Target(balancers: map<string, seq<Ipv4>>, nodes: seq<NodeInfo>, kind: NodeKind) {
    balancers.Keys == BalancersOf(nodes, kind)
        && forall lb | lb in balancers :: balancers[lb] == ClusterAddresses(nodes)
  }

  /** Every balancer lists exactly the cluster nodes among `final`, and DNS publishes them. */
  ghost predicate RoutesTo(r: Routing, dns: map<RecordKind, seq<RecordData>>, cluster: Cluster, final: seq<NodeInfo>) {
    && Target(r.active, final, Haproxy) && Target(r.passive, final, Nginx)
    && r.dns == Published(dns, cluster, IsColumnar(cluster.nodes), ClusterAddresses(final))
  }

  /** Some cluster node reported an OTP name that none of the leaving nodes reported. */
  ghost predicate HasControlNode(nodes: seq<NodeInfo>, toRemove: seq<NodeInfo>) {
    exists n :: n in nodes && (n.kind.ServerNode? || n.kind.ColumnarNode?) && n.otp != ""
                && forall l | l in toRemove :: l.otp != n.otp
  }

  lemma ControlMeans(nodes: seq<NodeInfo>, toRemove: seq<NodeInfo>)
    ensures (exists n :: n in nodes && CanControl(n, OtpsOf(toRemove))) <==> HasControlNode(nodes, toRemove)
  {
    OtpsOfContains(toRemove);
    forall n | n in nodes
      ensures CanControl(n, OtpsOf(toRemove))
         <==> (n.kind.ServerNode? || n.kind.ColumnarNode?) && n.otp != "" && forall l | l in toRemove :: l.otp != n.otp
    {
    }
  }

  /** A balancer that is written to after the removal is itself removed. */
  ghost predicate RemovesBalancer(adding: bool, toRemove: seq<NodeInfo>) {
    || (exists n :: n in toRemove && n.kind.Haproxy?)
    || (adding && exists n :: n in toRemove && n.kind.Nginx?)
  }

  lemma LacksRemovedBalancer(nodes: seq<NodeInfo>, r: Routing, adding: bool, toRemove: seq<NodeInfo>)
    requires DistinctContainers(nodes) && forall l | l in toRemove :: l in nodes
    requires r.active.Keys == BalancersOf(nodes, Haproxy) - ContainersOf(toRemove)
    requires r.passive.Keys == BalancersOf(nodes, Nginx) - ContainersOf(toRemove)
    ensures LacksBalancer(nodes, r, toRemove != [], adding) <==> RemovesBalancer(adding, toRemove)
  {
  }

  lemma MovedActive(r: Routing, cluster: Cluster, added: seq<NodeInfo>, toRemove: seq<NodeInfo>)
    requires Starts(r, cluster, added, toRemove) && !RemovesBalancer(added != [], toRemove)
    ensures Target(Moved(r, cluster, added, toRemove).active, Keep(cluster.nodes + added, toRemove), Haproxy)
  {
    var nodes, final := cluster.nodes, Keep(cluster.nodes + added, toRemove);
    NoRoundSkipped(nodes, added, toRemove);
    FinalBalancers(r.active, nodes, added, toRemove, Haproxy, added != [], toRemove != [],
                   ClusterAddresses(nodes + added), ClusterAddresses(final));
  }

  lemma MovedPassive(r: Routing, cluster: Cluster, added: seq<NodeInfo>, toRemove: seq<NodeInfo>)
    requires Starts(r, cluster, added, toRemove) && !RemovesBalancer(added != [], toRemove)
    ensures Target(Moved(r, cluster, added, toRemove).passive, Keep(cluster.nodes + added, toRemove), Nginx)
  {
    var nodes, final := cluster.nodes, Keep(cluster.nodes + added, toRemove);
    NoRoundSkipped(nodes, added, toRemove);
    AwayParts(r, cluster, added, toRemove);
    FinalBalancers(r.passive, nodes, added, toRemove, Nginx, toRemove != [], added != [],
                   ClusterAddresses(Keep(nodes, toRemove)), ClusterAddresses(final));
  }

  /** A successful run routes to exactly the nodes that stay plus the new ones. */
  lemma MovedRoutesExactly(r: Routing, cluster: Cluster, added: seq<NodeInfo>, toRemove: seq<NodeInfo>)
    requires Starts(r, cluster, added, toRemove) && !RemovesBalancer(added != [], toRemove)
    ensures RoutesTo(Moved(r, cluster, added, toRemove), r.dns, cluster, Keep(cluster.nodes + added, toRemove))
  {
    MovedActive(r, cluster, added, toRemove);
    MovedPassive(r, cluster, added, toRemove);
    NoRoundSkipped(cluster.nodes, added, toRemove);
    AwayParts(r, cluster, added, toRemove);
    PublishedTwice(r.dns, cluster, IsColumnar(cluster.nodes), ClusterAddresses(Keep(cluster.nodes, toRemove)),
                   ClusterAddresses(Keep(cluster.nodes + added, toRemove)));
  }

  /** A later update replaces an earlier one completely. */
  lemma PublishedTwice(dns: map<RecordKind, seq<RecordData>>, cluster: Cluster, columnar: bool, first: seq<Ipv4>,
                       second: seq<Ipv4>)
    ensures Published(Published(dns, cluster, columnar, first), cluster, columnar, second)
         == Published(dns, cluster, columnar, second)
  {
    assert RecordsFor(first, columnar, cluster.BalancerAddress()).Keys
           == RecordsFor(second, columnar, cluster.BalancerAddress()).Keys;
  }

  // ----- the conditions are necessary -----

  /** Balancers that target exactly these nodes list members only, or list all members, exactly if there is no such
      balancer or the nodes are members, or include them. */
  lemma TargetExactly(balancers: map<string, seq<Ipv4>>, nodes: seq<NodeInfo>, targets: seq<NodeInfo>, kind: NodeKind,
                      members: set<Ipv4>)
    requires balancers.Keys == BalancersOf(nodes, kind)
    requires forall lb | lb in balancers :: balancers[lb] == ClusterAddresses(targets)
    ensures (forall lb, a | lb in balancers && a in balancers[lb] :: a in members)
       <==> BalancersOf(nodes, kind) == {} || MemberAddresses(targets) <= members
    ensures (forall lb, a: Ipv4 | lb in balancers && a in members :: a in balancers[lb])
       <==> BalancersOf(nodes, kind) == {} || members <= MemberAddresses(targets)
  {
    AddressesAreMembers(targets);
    if BalancersOf(nodes, kind) != {} {
      var lb :| lb in BalancersOf(nodes, kind);
      assert lb in balancers;
    }
  }

  lemma PublishedHosts(dns: map<RecordKind, seq<RecordData>>, cluster: Cluster, addresses: seq<Ipv4>)
    requires cluster.ListsNodes() && cluster.dnsEnabled
    ensures var after := Published(dns, cluster, IsColumnar(cluster.nodes), addresses);
            HostRecord in after && after[HostRecord] == Records(0, addresses)
  {
  }

  /** DNS that was updated lists members only exactly if it was updated with members. */
  lemma PublishedExactly(r: Routing, dns: map<RecordKind, seq<RecordData>>, cluster: Cluster, nodes: seq<NodeInfo>)
    requires cluster.ListsNodes() && cluster.dnsEnabled && dns.Keys <= RecordKinds(IsColumnar(cluster.nodes))
    requires r.dns == Published(dns, cluster, IsColumnar(cluster.nodes), ClusterAddresses(nodes))
    ensures DnsWithin(r) <==> MemberAddresses(nodes) <= r.members
  {
    var addresses := ClusterAddresses(nodes);
    AddressesAreMembers(nodes);
    PublishedListsOnly(dns, cluster, addresses);
    PublishedHosts(dns, cluster, addresses);
    if DnsWithin(r) {
      var listed := Records(0, addresses);
      forall a | a in MemberAddresses(nodes) ensures a in r.members {
        var i :| 0 <= i < |addresses| && addresses[i] == a;
        assert listed[i] in r.dns[HostRecord] && listed[i].address == a;
      }
    }
  }

  /** Routing away to the nodes that stay is safe for passive balancers exactly if nothing is removed, there is none, or
      every node that stays is a member already; and likewise for DNS. */
  lemma AwayExactly(r: Routing, cluster: Cluster, added: seq<NodeInfo>, toRemove: seq<NodeInfo>)
    requires Starts(r, cluster, added, toRemove) && toRemove != []
    ensures PassiveWithin(Away(r, cluster, added, toRemove))
       <==> BalancersOf(cluster.nodes, Nginx) == {} || Followed(r, cluster.nodes, toRemove)
    ensures cluster.ListsNodes() && cluster.dnsEnabled ==>
              (DnsWithin(Away(r, cluster, added, toRemove)) <==> Followed(r, cluster.nodes, toRemove))
  {
    AwayPassive(r, cluster, added, toRemove);
    AwayParts(r, cluster, added, toRemove);
    TargetExactly(Away(r, cluster, added, toRemove).passive, cluster.nodes, Keep(cluster.nodes, toRemove), Nginx,
                  r.members);
    if cluster.ListsNodes() && cluster.dnsEnabled {
      PublishedExactly(Away(r, cluster, added, toRemove), r.dns, cluster, Keep(cluster.nodes, toRemove));
    }
  }

  lemma SameBalancersAfterAddition(nodes: seq<NodeInfo>, added: seq<NodeInfo>, kind: NodeKind)
    requires forall n | n in added :: n.kind != kind
    ensures BalancersOf(nodes + added, kind) == BalancersOf(nodes, kind)
  {
  }

  /** Without removals, the final nodes are members exactly if the old ones were, or waited to become members. */
  lemma MovedMembers(r: Routing, cluster: Cluster, added: seq<NodeInfo>)
    requires Starts(r, cluster, added, [])
    ensures MemberAddresses(cluster.nodes + added) <= Moved(r, cluster, added, []).members
            <==> Followed(r, cluster.nodes, [])
  {
    AddressFacts(cluster.nodes, added, []);
    ShiftedMembers(r, cluster, added, []);
  }

  /** After an addition without removal, passive balancers list members only exactly if there is none, or every node was
      a member or waited to become one. */
  lemma MovedPassiveExactly(r: Routing, cluster: Cluster, added: seq<NodeInfo>)
    requires Starts(r, cluster, added, [])
    ensures PassiveWithin(Moved(r, cluster, added, []))
            <==> BalancersOf(cluster.nodes, Nginx) == {} || Followed(r, cluster.nodes, [])
  {
    var all, moved := cluster.nodes + added, Moved(r, cluster, added, []);
    NoRoundSkipped(cluster.nodes, added, []);
    MovedMembers(r, cluster, added);
    MovedPassive(r, cluster, added, []);
    SameBalancersAfterAddition(cluster.nodes, added, Nginx);
    TargetExactly(moved.passive, all, all, Nginx, moved.members);
  }

  /** The same for the node lists in DNS. */
  lemma MovedListsExactly(r: Routing, cluster: Cluster, added: seq<NodeInfo>)
    requires Starts(r, cluster, added, [])
    requires cluster.ListsNodes() && cluster.dnsEnabled
    ensures DnsWithin(Moved(r, cluster, added, [])) <==> Followed(r, cluster.nodes, [])
  {
    var all, moved := cluster.nodes + added, Moved(r, cluster, added, []);
    NoRoundSkipped(cluster.nodes, added, []);
    MovedMembers(r, cluster, added);
    MovedRoutesExactly(r, cluster, added, []);
    PublishedExactly(moved, r.dns, cluster, all);
  }

  /** The observations that every completed run makes. */
  ghost predicate Holds(r: Routing, cluster: Cluster, added: seq<NodeInfo>, toRemove: seq<NodeInfo>, t: Terms) {
    && Safe(r, t) && Safe(Away(r, cluster, added, toRemove), t)
    && Safe(Shifted(r, cluster, added, toRemove), t) && Safe(Moved(r, cluster, added, toRemove), t)
  }

  lemma ListingNeeds(r: Routing, cluster: Cluster, added: seq<NodeInfo>, toRemove: seq<NodeInfo>)
    requires Starts(r, cluster, added, toRemove) && !RemovesBalancer(added != [], toRemove)
    ensures Holds(r, cluster, added, toRemove, PASSIVE_ONLY) ==> TermsOf(r, cluster, added, toRemove).passive
    ensures cluster.ListsNodes() && Holds(r, cluster, added, toRemove, LISTING_ONLY)
            ==> TermsOf(r, cluster, added, toRemove).listing
  {
    if toRemove != [] {
      AwayExactly(r, cluster, added, toRemove);
    } else {
      NoRoundSkipped(cluster.nodes, added, toRemove);
      MovedPassiveExactly(r, cluster, added);
      if cluster.ListsNodes() && cluster.dnsEnabled { MovedListsExactly(r, cluster, added); }
    }
  }

  lemma RunningNeeds(r: Routing, cluster: Cluster, added: seq<NodeInfo>, toRemove: seq<NodeInfo>)
    requires Starts(r, cluster, added, toRemove)
    ensures Holds(r, cluster, added, toRemove, RUNNING_ONLY) ==> TermsOf(r, cluster, added, toRemove).running
    ensures cluster.usingCerts && Holds(r, cluster, added, toRemove, CERTS_ONLY)
            ==> TermsOf(r, cluster, added, toRemove).certs
  {
  }

  /** Active balancers cover the members after a completed run exactly if there is none, or every member has a
      container. */
  lemma MovedCovers(r: Routing, cluster: Cluster, added: seq<NodeInfo>, toRemove: seq<NodeInfo>)
    requires Starts(r, cluster, added, toRemove) && !RemovesBalancer(added != [], toRemove)
    ensures ActiveCovers(Moved(r, cluster, added, toRemove))
       <==> BalancersOf(cluster.nodes, Haproxy) == {} || Accounted(r, cluster.nodes, added, toRemove)
  {
    var final, moved := Keep(cluster.nodes + added, toRemove), Moved(r, cluster, added, toRemove);
    MovedActive(r, cluster, added, toRemove);
    SurvivingBalancers(cluster.nodes, added, toRemove, Haproxy);
    TargetExactly(moved.active, final, final, Haproxy, moved.members);
    MembersExactly(r, cluster, added, toRemove);
  }

  lemma CoveringNeeds(r: Routing, cluster: Cluster, added: seq<NodeInfo>, toRemove: seq<NodeInfo>)
    requires Starts(r, cluster, added, toRemove) && !RemovesBalancer(added != [], toRemove)
    ensures Holds(r, cluster, added, toRemove, COVERING_ONLY) ==> TermsOf(r, cluster, added, toRemove).covering
  {
    if Holds(r, cluster, added, toRemove, COVERING_ONLY) {
      MovedCovers(r, cluster, added, toRemove);
      if added == [] {
        ShiftedMembers(r, cluster, added, toRemove);
        AwayActive(r, cluster, added, toRemove);
      }
    }
  }

  // ----- starts that an earlier run leaves behind -----

  /** All promises that apply to the cluster hold, and every member has a container. */
  ghost predicate SafeStart(r: Routing, cluster: Cluster) {
    Safe(r, Terms(true, cluster.ListsNodes(), true, true, cluster.usingCerts))
  }

  /** After a completed run, a change keeps every promise, except that a removed node without an OTP name costs coverage
      by active balancers and leaves a member without container. */
  lemma AfterCompletedRun(r: Routing, cluster: Cluster, added: seq<NodeInfo>, toRemove: seq<NodeInfo>)
    requires Starts(r, cluster, added, toRemove) && SafeStart(r, cluster)
    requires r.members == MemberAddresses(cluster.nodes) && r.pending == {}
    ensures TermsOf(r, cluster, added, toRemove)
         == Terms(true, cluster.ListsNodes(), AllKnown(toRemove) || BalancersOf(cluster.nodes, Haproxy) == {},
                  AllKnown(toRemove), cluster.usingCerts)
  {
    AccountedWhenSettled(r, cluster.nodes, added, toRemove);
  }

  /** After a failed rebalance of an addition, or a failed registration, adding more nodes keeps every promise, as long
      as each container is a member or waits to become one. */
  lemma AfterFailedAddition(r: Routing, cluster: Cluster, added: seq<NodeInfo>)
    requires Starts(r, cluster, added, []) && SafeStart(r, cluster)
    requires r.members + r.pending == MemberAddresses(cluster.nodes)
    ensures TermsOf(r, cluster, added, []) == Terms(true, cluster.ListsNodes(), true, true, cluster.usingCerts)
  {
    AddressFacts(cluster.nodes, added, []);
  }

  /** A container that is no member and does not wait to become one - a deployment that failed half way leaves it -
      breaks the promise on passive balancers in every completed change that does not remove it, be it an addition or a
      removal. */
  lemma AfterFailedDeployment(r: Routing, cluster: Cluster, added: seq<NodeInfo>, toRemove: seq<NodeInfo>,
                              stray: NodeInfo)
    requires Starts(r, cluster, added, toRemove) && BalancersOf(cluster.nodes, Nginx) != {}
    requires stray in cluster.nodes && stray.IsClusterNode() && stray.address !in r.members + r.pending
             && stray !in toRemove
    ensures !TermsOf(r, cluster, added, toRemove).passive
  {
    KeepKeeps(cluster.nodes, toRemove);
    assert stray.address in MemberAddresses(Keep(cluster.nodes, toRemove));
  }
}
