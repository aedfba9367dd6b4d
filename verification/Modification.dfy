/** One complete add/remove run: what it promises at every step, and exactly how it ends. */
module Modification {
  import opened Topology
  import opened ClusterDef
  import opened Membership
  import opened RoutingSteps
  import opened AddRemoveProtocol
  import opened Promises

  /** The node that drives the rebalance survives it. */
  lemma ControlNodeRuns(nodes: seq<NodeInfo>, toRemove: seq<NodeInfo>, containers: seq<NodeInfo>)
    requires HasControlNode(nodes, toRemove) && StayRunning(nodes, toRemove, containers)
    ensures containers != []
  {
    var n :| n in nodes && n.otp != "" && forall l | l in toRemove :: l.otp != n.otp;
    assert n in containers;
  }

  method LeavingOtps(toRemove: seq<NodeInfo>) returns (otps: seq<string>)
    ensures otps == OtpsOf(toRemove)
  {
    otps := [];
    for i := 0 to |toRemove|
      invariant otps == OtpsOf(toRemove[..i])
    {
      assert toRemove[..i + 1] == toRemove[..i] + [toRemove[i]];
      otps := otps + [toRemove[i].otp];
    }
    assert toRemove[..|toRemove|] == toRemove;
  }

  method DeployedIds(leases: seq<Lease>) returns (nodeIds: seq<string>)
    ensures |nodeIds| == |leases| && forall i | 0 <= i < |leases| :: nodeIds[i] == leases[i].nodeId
  {
    nodeIds := [];
    for i := 0 to |leases|
      invariant |nodeIds| == i && forall j | 0 <= j < i :: nodeIds[j] == leases[j].nodeId
    {
      nodeIds := nodeIds + [leases[i].nodeId];
    }
  }

  lemma NothingLacks(nodes: seq<NodeInfo>, r: Routing)
    requires r.active.Keys == BalancersOf(nodes, Haproxy) && r.passive.Keys == BalancersOf(nodes, Nginx)
    ensures !LacksBalancer(nodes, r, true, true)
  {
  }

  lemma StillRecorded(before: seq<Routing>, after: seq<Routing>, r: Routing)
    requires before <= after && r in before
    ensures r in after
  {
  }

  // ----- the phases of a run that starts with routing `start` -----

  /** What the phases rely on, for the promises `t`. */
  ghost predicate Planned(start: Routing, cluster: Cluster, added: seq<NodeInfo>, toRemove: seq<NodeInfo>, t: Terms) {
    var all := cluster.nodes + added;
    var prepared, shifted := Prepared(start, cluster, added), Shifted(start, cluster, added, toRemove);
    && (added != [] ==> MayCover(prepared, cluster, all, t))
    && (toRemove != [] ==> MayList(prepared, cluster, WithoutAddresses(cluster.nodes, AddressesOf(toRemove)), t))
    && ReadyToRebalance(Away(start, cluster, added, toRemove), t, Ejected(cluster.nodes, OtpsOf(toRemove)))
    && (t.running ==> forall n | n in toRemove && n.IsClusterNode() :: n.address !in shifted.members)
    && (added != [] ==> MayList(shifted, cluster, Keep(all, toRemove), t))
    && (toRemove != [] ==> MayCover(shifted, cluster, Keep(all, toRemove), t))
  }

  lemma StartIsPlanned(start: Routing, cluster: Cluster, added: seq<NodeInfo>, toRemove: seq<NodeInfo>)
    requires Starts(start, cluster, added, toRemove)
    ensures Planned(start, cluster, added, toRemove, TermsOf(start, cluster, added, toRemove))
  {
    MayRouteAway(start, cluster, added, toRemove);
    ReadyAfterRouteAway(start, cluster, added, toRemove);
    if TermsOf(start, cluster, added, toRemove).running { RemovedAreNoMembers(start, cluster, added, toRemove); }
    MayRouteBack(start, cluster, added, toRemove);
  }

  /** With every balancer configured, routing away fails on failures only. */
  method RouteAllAway(w: World, cluster: Cluster, toRemove: seq<NodeInfo>, adding: bool, ghost added: seq<NodeInfo>,
                      ghost start: Routing, ghost t: Terms)
    returns (ok: bool)
    requires w.Steady(t) && !w.failed && w.Coherent(cluster.dnsEnabled)
    requires added != [] ==> MayCover(w.Now(), cluster, w.containers, t)
    requires toRemove != [] ==> MayList(w.Now(), cluster, WithoutAddresses(cluster.nodes, AddressesOf(toRemove)), t)
    requires RecordKinds(IsColumnar(cluster.nodes)) <= RecordKinds(IsColumnar(w.containers))
    requires !LacksBalancer(cluster.nodes, w.Now(), true, true)
    requires adding == (added != []) && w.containers == cluster.nodes + added
             && w.Now() == Prepared(start, cluster, added)
    modifies w`failed, w`active, w`passive, w`dns, w`history
    ensures w.Steady(t) && old(w.history) <= w.history && w.Coherent(cluster.dnsEnabled)
    ensures ok <==> !w.failed
    ensures ok ==> w.Now() == Away(start, cluster, added, toRemove)
    ensures LeavesDns(cluster, IsColumnar(cluster.nodes)) ==> w.dns == old(w.dns)
  {
    ok := RouteAway(w, cluster, adding, toRemove, t);
  }

  /** Rebalances the leaving nodes out of the cluster, once routing allows it. `began` is an earlier history. */
  method RebalanceAway(w: World, cluster: Cluster, toRemove: seq<NodeInfo>, ghost added: seq<NodeInfo>,
                       ghost start: Routing, ghost t: Terms, ghost began: seq<Routing>)
    returns (ok: bool)
    requires w.Steady(t) && !w.failed && w.Coherent(cluster.dnsEnabled) && began <= w.history
    requires Planned(start, cluster, added, toRemove, t) && w.Now() == Away(start, cluster, added, toRemove)
    modifies w`failed, w`members, w`pending, w`history
    ensures w.Steady(t) && began <= w.history && w.Coherent(cluster.dnsEnabled)
    ensures ok <==> !w.failed && HasControlNode(cluster.nodes, toRemove)
    ensures ok ==> w.Now() == Shifted(start, cluster, added, toRemove)
    ensures ok ==> Away(start, cluster, added, toRemove) in w.history
                   && Shifted(start, cluster, added, toRemove) in w.history
  {
    ghost var before := w.history;
    var otps := LeavingOtps(toRemove);
    ControlMeans(cluster.nodes, toRemove);
    ok := RunRebalance(w, cluster.nodes, otps, t);
    StillRecorded(before, w.history, Away(start, cluster, added, toRemove));
  }

  /** Route away, then rebalance. Both ends are recorded. */
  method ShiftTraffic(w: World, cluster: Cluster, toRemove: seq<NodeInfo>, adding: bool, ghost added: seq<NodeInfo>,
                      ghost start: Routing, ghost t: Terms)
    returns (ok: bool)
    requires w.Steady(t) && !w.failed && w.Coherent(cluster.dnsEnabled)
    requires Planned(start, cluster, added, toRemove, t) && w.Now() == Prepared(start, cluster, added)
    requires RecordKinds(IsColumnar(cluster.nodes)) <= RecordKinds(IsColumnar(w.containers))
    requires !LacksBalancer(cluster.nodes, w.Now(), true, true)
    requires adding == (added != []) && w.containers == cluster.nodes + added
    modifies w`failed, w`members, w`pending, w`active, w`passive, w`dns, w`history
    ensures w.Steady(t) && old(w.history) <= w.history && w.Coherent(cluster.dnsEnabled)
    ensures ok <==> !w.failed && HasControlNode(cluster.nodes, toRemove)
    ensures ok ==> w.Now() == Shifted(start, cluster, added, toRemove)
    ensures LeavesDns(cluster, IsColumnar(cluster.nodes)) ==> w.dns == old(w.dns)
    ensures ok ==> Away(start, cluster, added, toRemove) in w.history
                   && Shifted(start, cluster, added, toRemove) in w.history
  {
    ok := RouteAllAway(w, cluster, toRemove, adding, added, start, t);
    if !ok { return; }
    ok := RebalanceAway(w, cluster, toRemove, added, start, t, old(w.history));
  }

  /** What the last updates will miss. */
  lemma LacksAfterRemoval(r: Routing, cluster: Cluster, added: seq<NodeInfo>, toRemove: seq<NodeInfo>)
    requires Starts(r, cluster, added, toRemove)
    ensures LacksBalancer(cluster.nodes, Cleared(r, cluster, added, toRemove), toRemove != [], added != [])
       <==> RemovesBalancer(added != [], toRemove)
  {
    var away := Away(r, cluster, added, toRemove);
    AwayActive(r, cluster, added, toRemove);
    AwayPassive(r, cluster, added, toRemove);
    DroppedAt(away.active, toRemove);
    DroppedAt(away.passive, toRemove);
    LacksRemovedBalancer(cluster.nodes, Cleared(r, cluster, added, toRemove), added != [], toRemove);
  }

  /** Remove the leaving containers, then route to what is left. */
  method SettleTraffic(w: World, cluster: Cluster, toRemove: seq<NodeInfo>, adding: bool, ghost added: seq<NodeInfo>,
                       ghost start: Routing, ghost t: Terms)
    returns (ok: bool)
    requires w.Steady(t) && !w.failed && w.Coherent(cluster.dnsEnabled)
    requires Planned(start, cluster, added, toRemove, t) && w.Now() == Shifted(start, cluster, added, toRemove)
    requires Identifies(w.containers, toRemove)
    requires adding == (added != []) && w.containers == cluster.nodes + added
    modifies w`failed, w`containers, w`active, w`passive, w`dns, w`history
    ensures w.Steady(t) && old(w.history) <= w.history && w.Coherent(cluster.dnsEnabled)
    ensures exists k: nat :: k <= |toRemove| && w.containers == Keep(old(w.containers), toRemove[..k])
    ensures ok <==> !w.failed && !LacksBalancer(cluster.nodes, Cleared(start, cluster, added, toRemove), toRemove != [],
                                                adding)
    ensures ok ==> w.containers == Keep(cluster.nodes + added, toRemove)
                   && w.Now() == Moved(start, cluster, added, toRemove)
    ensures !adding || LeavesDns(cluster, IsColumnar(Keep(cluster.nodes + added, toRemove))) ==> w.dns == old(w.dns)
  {
    ok := RemoveContainers(w, toRemove, t, cluster.dnsEnabled);
    if !ok { return; }
    assert toRemove[..|toRemove|] == toRemove;
    assert w.Now() == Cleared(start, cluster, added, toRemove);
    ok := RouteBack(w, cluster, adding, toRemove != [], t);
  }

  /** No node that stays loses its container. */
  ghost predicate StayRunning(nodes: seq<NodeInfo>, toRemove: seq<NodeInfo>, containers: seq<NodeInfo>) {
    forall n | n in nodes && n !in toRemove :: n in containers
  }

  lemma SomeRemovedStayRunning(nodes: seq<NodeInfo>, toRemove: seq<NodeInfo>, containers: seq<NodeInfo>)
    requires exists k: nat :: k <= |toRemove| && containers == Keep(nodes, toRemove[..k])
    ensures StayRunning(nodes, toRemove, containers)
  {
    var k: nat :| k <= |toRemove| && containers == Keep(nodes, toRemove[..k]);
    KeepKeeps(nodes, toRemove[..k]);
  }

  /** Everything after the new nodes were registered. */
  method MoveTraffic(w: World, cluster: Cluster, toRemove: seq<NodeInfo>, adding: bool, ghost added: seq<NodeInfo>,
                     ghost start: Routing, ghost t: Terms)
    returns (ok: bool)
    requires w.Steady(t) && !w.failed && w.Coherent(cluster.dnsEnabled)
    requires Planned(start, cluster, added, toRemove, t) && w.Now() == Prepared(start, cluster, added)
    requires RecordKinds(IsColumnar(cluster.nodes)) <= RecordKinds(IsColumnar(w.containers))
    requires !LacksBalancer(cluster.nodes, w.Now(), true, true) && Identifies(w.containers, toRemove)
    requires adding == (added != []) && w.containers == cluster.nodes + added != []
    modifies w`failed, w`containers, w`members, w`pending, w`active, w`passive, w`dns, w`history
    ensures w.Steady(t) && old(w.history) <= w.history && w.Coherent(cluster.dnsEnabled)
    ensures ok <==> !w.failed && HasControlNode(cluster.nodes, toRemove)
                    && !LacksBalancer(cluster.nodes, Cleared(start, cluster, added, toRemove), toRemove != [], adding)
    ensures StayRunning(cluster.nodes, toRemove, w.containers) && w.containers != []
    ensures ok ==> w.containers == Keep(cluster.nodes + added, toRemove)
                   && w.Now() == Moved(start, cluster, added, toRemove)
    ensures ok ==> Away(start, cluster, added, toRemove) in w.history
                   && Shifted(start, cluster, added, toRemove) in w.history
    ensures && LeavesDns(cluster, IsColumnar(cluster.nodes))
            && (!adding || LeavesDns(cluster, IsColumnar(Keep(cluster.nodes + added, toRemove))))
            ==> w.dns == old(w.dns)
  {
    ok := ShiftTraffic(w, cluster, toRemove, adding, added, start, t);
    if !ok { return; }
    ghost var before := w.history;
    ok := SettleTraffic(w, cluster, toRemove, adding, added, start, t);
    SomeRemovedStayRunning(cluster.nodes + added, toRemove, w.containers);
    ControlNodeRuns(cluster.nodes, toRemove, w.containers);
    StillRecorded(before, w.history, Away(start, cluster, added, toRemove));
    StillRecorded(before, w.history, Shifted(start, cluster, added, toRemove));
  }

  lemma NewNodesSameType(nodes: seq<NodeInfo>, leases: seq<Lease>, groups: seq<NodeGroup>, toRemove: seq<NodeInfo>)
    requires |leases| == |groups| && groups != [] && forall l | l in toRemove :: l in nodes
    requires forall n | n in DeployedNodes(leases, groups, IsColumnar(nodes)) :: n !in nodes
    ensures IsColumnar(Keep(nodes + DeployedNodes(leases, groups, IsColumnar(nodes)), toRemove)) == IsColumnar(nodes)
  {
    var added := DeployedNodes(leases, groups, IsColumnar(nodes));
    KeepKeeps(nodes + added, toRemove);
    assert added[0] in added && added[0] in Keep(nodes + added, toRemove);
  }

  lemma AddedFit(nodes: seq<NodeInfo>, leases: seq<Lease>, groups: seq<NodeGroup>, toRemove: seq<NodeInfo>)
    requires |leases| == |groups| && Distinct(nodes) && FreshLeases(nodes, leases)
             && forall l | l in toRemove :: l in nodes
    ensures var added := DeployedNodes(leases, groups, IsColumnar(nodes));
            && Fits(nodes, added, toRemove) && MemberAddresses(added) == LeaseAddresses(leases)
            && (groups != [] ==> IsColumnar(Keep(nodes + added, toRemove)) == IsColumnar(nodes))
  {
    DeployedAreDistinct(nodes, leases, groups, IsColumnar(nodes));
    if groups != [] { NewNodesSameType(nodes, leases, groups, toRemove); }
  }

  // ----- the whole run -----

  lemma PrefixIsCoherent(nodes: seq<NodeInfo>, added: seq<NodeInfo>, k: nat)
    requires Fits(nodes, added, []) && IsColumnar(nodes + added) == IsColumnar(nodes) && k <= |added|
    ensures var some := nodes + added[..k];
            && DistinctContainers(some) && DistinctAddresses(some)
            && BalancersOf(some, Haproxy) == BalancersOf(nodes, Haproxy)
            && BalancersOf(some, Nginx) == BalancersOf(nodes, Nginx)
            && IsColumnar(some) == IsColumnar(nodes)
  {
    var some := nodes + added[..k];
    assert forall i | 0 <= i < |some| :: some[i] == (nodes + added)[i];
    forall n | n in added[..k] ensures n in added {}
    SameBalancersAfterAddition(nodes, added[..k], Haproxy);
    SameBalancersAfterAddition(nodes, added[..k], Nginx);
    if IsColumnar(some) {
      var n :| n in some && n.kind.ColumnarNode?;
      assert n in nodes + added;
    } else {
      assert forall n | n in nodes :: n in some;
    }
  }

  /** A promise is kept at every step of the run exactly if its condition held at the start. */
  ghost predicate KeptExactly(history: seq<Routing>, cluster: Cluster, t: Terms) {
    && (AllSafe(history, PASSIVE_ONLY) <==> t.passive)
    && (cluster.ListsNodes() ==> (AllSafe(history, LISTING_ONLY) <==> t.listing))
    && (AllSafe(history, COVERING_ONLY) <==> t.covering)
    && (AllSafe(history, RUNNING_ONLY) <==> t.running)
    && (cluster.usingCerts ==> (AllSafe(history, CERTS_ONLY) <==> t.certs))
  }

  /** Fewer promises are kept by whatever keeps more. */
  lemma FewerPromises(history: seq<Routing>, t: Terms, fewer: Terms)
    requires AllSafe(history, t)
    requires (fewer.passive ==> t.passive) && (fewer.listing ==> t.listing) && (fewer.covering ==> t.covering)
    requires (fewer.running ==> t.running) && (fewer.certs ==> t.certs)
    ensures AllSafe(history, fewer)
  {
  }

  ghost predicate Records(history: seq<Routing>, start: Routing, cluster: Cluster, added: seq<NodeInfo>,
                          toRemove: seq<NodeInfo>) {
    && start in history && Away(start, cluster, added, toRemove) in history
    && Shifted(start, cluster, added, toRemove) in history && Moved(start, cluster, added, toRemove) in history
  }

  lemma RecordedHolds(history: seq<Routing>, start: Routing, cluster: Cluster, added: seq<NodeInfo>,
                      toRemove: seq<NodeInfo>, t: Terms)
    requires Records(history, start, cluster, added, toRemove) && AllSafe(history, t)
    ensures Holds(start, cluster, added, toRemove, t)
  {
    AllSafeEverywhere(history, t);
  }

  lemma RunKeepsExactly(history: seq<Routing>, start: Routing, cluster: Cluster, added: seq<NodeInfo>,
                        toRemove: seq<NodeInfo>)
    requires Starts(start, cluster, added, toRemove) && !RemovesBalancer(added != [], toRemove)
    requires Records(history, start, cluster, added, toRemove)
    requires AllSafe(history, TermsOf(start, cluster, added, toRemove))
    ensures KeptExactly(history, cluster, TermsOf(start, cluster, added, toRemove))
  {
    var t := TermsOf(start, cluster, added, toRemove);
    ListingNeeds(start, cluster, added, toRemove);
    RunningNeeds(start, cluster, added, toRemove);
    CoveringNeeds(start, cluster, added, toRemove);
    KeptIffHolds(history, start, cluster, added, toRemove, t, PASSIVE_ONLY, t.passive);
    if cluster.ListsNodes() { KeptIffHolds(history, start, cluster, added, toRemove, t, LISTING_ONLY, t.listing); }
    KeptIffHolds(history, start, cluster, added, toRemove, t, COVERING_ONLY, t.covering);
    KeptIffHolds(history, start, cluster, added, toRemove, t, RUNNING_ONLY, t.running);
    if cluster.usingCerts { KeptIffHolds(history, start, cluster, added, toRemove, t, CERTS_ONLY, t.certs); }
  }

  lemma KeptIffHolds(history: seq<Routing>, start: Routing, cluster: Cluster, added: seq<NodeInfo>,
                     toRemove: seq<NodeInfo>, t: Terms, only: Terms, flag: bool)
    requires Records(history, start, cluster, added, toRemove) && AllSafe(history, t)
    requires Holds(start, cluster, added, toRemove, only) ==> flag
    requires flag ==> (only.passive ==> t.passive) && (only.listing ==> t.listing) && (only.covering ==> t.covering)
                      && (only.running ==> t.running) && (only.certs ==> t.certs)
    ensures AllSafe(history, only) <==> flag
  {
    if flag { FewerPromises(history, t, only); }
    if AllSafe(history, only) { RecordedHolds(history, start, cluster, added, toRemove, only); }
  }

  /** The end of a run in which nothing failed: what is routed and who is a member. */
  ghost predicate Arrived(r: Routing, start: Routing, cluster: Cluster, added: seq<NodeInfo>, toRemove: seq<NodeInfo>) {
    var nodes, final := cluster.nodes, Keep(cluster.nodes + added, toRemove);
    && r == Moved(start, cluster, added, toRemove) && r.pending == {}
    && RoutesTo(r, start.dns, cluster, final) && DnsOn(r.dns, cluster, final)
    && (r.members == MemberAddresses(final) <==>
          Accounted(start, nodes, added, toRemove)
              && MemberAddresses(Keep(nodes, toRemove)) <= start.members + start.pending)
    && (ActiveCovers(r) <==> Accounted(start, nodes, added, toRemove) || BalancersOf(final, Haproxy) == {})
  }

  /** How a run ends in which nothing failed. */
  ghost predicate Completed(w: World, start: Routing, cluster: Cluster, added: seq<NodeInfo>, toRemove: seq<NodeInfo>)
    reads w
  {
    && w.containers == Keep(cluster.nodes + added, toRemove) && Arrived(w.Now(), start, cluster, added, toRemove)
    && KeptExactly(w.history, cluster, TermsOf(start, cluster, added, toRemove))
  }

  lemma RunArrives(start: Routing, cluster: Cluster, added: seq<NodeInfo>, toRemove: seq<NodeInfo>)
    requires Starts(start, cluster, added, toRemove) && !RemovesBalancer(added != [], toRemove)
    ensures Arrived(Moved(start, cluster, added, toRemove), start, cluster, added, toRemove)
  {
    MovedRoutesExactly(start, cluster, added, toRemove);
    if cluster.dnsEnabled { UpdateIsOn(start.dns, cluster, Keep(cluster.nodes + added, toRemove)); }
    MembersExactly(start, cluster, added, toRemove);
    MovedCovers(start, cluster, added, toRemove);
    SurvivingBalancers(cluster.nodes, added, toRemove, Haproxy);
  }

  lemma ChangeStarts(w: World, cluster: Cluster, leases: seq<Lease>, groups: seq<NodeGroup>, toRemove: seq<NodeInfo>)
    requires w.Startable(cluster) && |leases| == |groups| && FreshLeases(cluster.nodes, leases)
    requires (forall l | l in toRemove :: l in cluster.nodes) && (groups != [] || toRemove != [])
    ensures var added := DeployedNodes(leases, groups, IsColumnar(cluster.nodes));
            Starts(w.Now(), cluster, added, toRemove) && Fits(cluster.nodes, added, [])
                && MemberAddresses(added) == LeaseAddresses(leases)
  {
    AddedFit(cluster.nodes, leases, groups, toRemove);
    AddedFit(cluster.nodes, leases, groups, []);
    var added := DeployedNodes(leases, groups, IsColumnar(cluster.nodes));
    KeepAll(cluster.nodes + added, []);
    if added == [] { assert cluster.nodes + added == cluster.nodes; }
  }

  /** What the preparation leaves behind, whether it succeeds or not. */
  lemma PreparedIsCoherent(w: World, cluster: Cluster, added: seq<NodeInfo>, k: nat)
    requires Fits(cluster.nodes, added, []) && IsColumnar(cluster.nodes + added) == IsColumnar(cluster.nodes)
             && k <= |added|
    requires w.containers == cluster.nodes + added[..k] && Wired(w.Now(), cluster)
    ensures w.Coherent(cluster.dnsEnabled) && IsColumnar(w.containers) == IsColumnar(cluster.nodes)
  {
    PrefixIsCoherent(cluster.nodes, added, k);
  }

  /** Deploy, certify and register, with what that means for the routing. */
  method PrepareChange(w: World, cluster: Cluster, toAdd: seq<NodeGroup>, leases: seq<Lease>,
                       ghost added: seq<NodeInfo>, ghost t: Terms)
    returns (ok: bool)
    requires t.certs ==> cluster.usingCerts
    requires w.Steady(t) && !w.failed && w.containers == cluster.nodes && Wired(w.Now(), cluster)
    requires |leases| == |toAdd| && added == DeployedNodes(leases, toAdd, IsColumnar(cluster.nodes))
    requires Fits(cluster.nodes, added, []) && IsColumnar(cluster.nodes + added) == IsColumnar(cluster.nodes)
    requires MemberAddresses(added) == LeaseAddresses(leases)
    modifies w`failed, w`containers, w`certified, w`registrations, w`pending, w`history
    ensures w.Steady(t) && old(w.history) <= w.history && w.failed == !ok
    ensures w.Coherent(cluster.dnsEnabled) && StayRunning(cluster.nodes, [], w.containers)
    ensures IsColumnar(w.containers) == IsColumnar(cluster.nodes)
    ensures ok ==> w.containers == cluster.nodes + added && w.Now() == Prepared(old(w.Now()), cluster, added)
    ensures ok ==> w.registrations == Registered(old(w.registrations), leases, toAdd)
  {
    ok := PrepareNodes(w, cluster, toAdd, leases, t);
    ghost var k: nat :| k <= |added| && w.containers == cluster.nodes + added[..k];
    PreparedIsCoherent(w, cluster, added, k);
  }

  /** Without a rebalance, the members are the nodes only if nobody waits to join. */
  ghost predicate NobodyWaits(w: World, cluster: Cluster)
    reads w
  {
    w.members !! w.pending && w.pending <= MemberAddresses(cluster.nodes) ==>
      (w.members == MemberAddresses(cluster.nodes)
       <==> w.members + w.pending == MemberAddresses(cluster.nodes) && w.pending == {})
  }

  /** No run writes to DNS: there is none, or the cluster is a columnar one behind a balancer, which DNS points at. */
  ghost predicate DnsFixed(cluster: Cluster) {
    !cluster.dnsEnabled || (BehindBalancer(cluster.nodes) && exists n :: n in cluster.nodes && n.kind.ColumnarNode?)
  }

  /** What a run that began with routing `start` leaves in any case. */
  ghost predicate LeftSafely(w: World, cluster: Cluster, start: Routing, added: seq<NodeInfo>, toRemove: seq<NodeInfo>)
    reads w
  {
    && w.Steady(TermsOf(start, cluster, added, toRemove)) && [start] <= w.history
    && w.Coherent(cluster.dnsEnabled) && w.containers != []
    && StayRunning(cluster.nodes, toRemove, w.containers)
    && (DnsFixed(cluster) ==> w.dns == start.dns)
  }

  /** How a change ends that adds or removes something. */
  ghost predicate Changed(w: World, ok: bool, cluster: Cluster, start: Routing, added: seq<NodeInfo>,
                          toRemove: seq<NodeInfo>)
    reads w
  {
    && LeftSafely(w, cluster, start, added, toRemove)
    && (ok <==> !w.failed && HasControlNode(cluster.nodes, toRemove) && !RemovesBalancer(added != [], toRemove))
    && (ok ==> Completed(w, start, cluster, added, toRemove))
  }

  /** How a run ends that began with routing `start`: every promise whose condition held at the start was kept at every
      step; the next run can start; staying nodes kept their containers; and exactly when the run succeeds. */
  ghost predicate Ends(w: World, ok: bool, cluster: Cluster, start: Routing, registrations: map<Ipv4, Registration>,
                       toAdd: seq<NodeGroup>, toRemove: seq<NodeInfo>, leases: seq<Lease>)
    requires |leases| == |toAdd|
    reads w
  {
    if toAdd == [] && toRemove == [] then
      && LeftSafely(w, cluster, start, [], [])
      && ok && !w.failed && w.history == [start] && w.containers == cluster.nodes && w.registrations == registrations
      && w.pending == start.pending && NobodyWaits(w, cluster)
    else
      && Changed(w, ok, cluster, start, DeployedNodes(leases, toAdd, IsColumnar(cluster.nodes)), toRemove)
      && (ok ==> w.registrations == Registered(registrations, leases, toAdd))
  }

  lemma FewerLeave(nodes: seq<NodeInfo>, toRemove: seq<NodeInfo>, containers: seq<NodeInfo>)
    requires StayRunning(nodes, [], containers) && nodes != []
    ensures StayRunning(nodes, toRemove, containers) && containers != []
  {
    assert nodes[0] in containers;
  }

  /** The registered nodes are ready for the rest of the run, whose log so far begins with `start`. */
  ghost predicate Registering(w: World, cluster: Cluster, start: Routing, added: seq<NodeInfo>, toRemove: seq<NodeInfo>)
    reads w
  {
    && w.Steady(TermsOf(start, cluster, added, toRemove)) && [start] <= w.history && !w.failed
    && w.Coherent(cluster.dnsEnabled)
    && Starts(start, cluster, added, toRemove) && cluster.nodes != []
    && w.containers == cluster.nodes + added && w.Now() == Prepared(start, cluster, added)
    && IsColumnar(w.containers) == IsColumnar(cluster.nodes)
  }

  /** From the registered nodes to the end. */
  method FinishChange(w: World, cluster: Cluster, toRemove: seq<NodeInfo>, adding: bool, ghost added: seq<NodeInfo>,
                      ghost start: Routing)
    returns (ok: bool)
    requires Registering(w, cluster, start, added, toRemove) && adding == (added != [])
    modifies w`failed, w`containers, w`members, w`pending, w`active, w`passive, w`dns, w`history
    ensures Changed(w, ok, cluster, start, added, toRemove)
  {
    StartIsPlanned(start, cluster, added, toRemove);
    NothingLacks(cluster.nodes, w.Now());
    LeavingAreIdentified(w.containers, toRemove);
    LacksAfterRemoval(start, cluster, added, toRemove);
    assert start in [start];
    ok := MoveTraffic(w, cluster, toRemove, adding, added, start, TermsOf(start, cluster, added, toRemove));
    if !ok { return; }
    StillRecorded([start], w.history, start);
    RunArrives(start, cluster, added, toRemove);
    RunKeepsExactly(w.history, start, cluster, added, toRemove);
  }

  lemma ChangeIsSafe(w: World, cluster: Cluster, leases: seq<Lease>, groups: seq<NodeGroup>, toRemove: seq<NodeInfo>,
                     added: seq<NodeInfo>)
    requires w.Startable(cluster) && |leases| == |groups| && FreshLeases(cluster.nodes, leases)
    requires (forall l | l in toRemove :: l in cluster.nodes) && (groups != [] || toRemove != [])
    requires added == DeployedNodes(leases, groups, IsColumnar(cluster.nodes))
    ensures Starts(w.Now(), cluster, added, toRemove) && Fits(cluster.nodes, added, [])
            && MemberAddresses(added) == LeaseAddresses(leases)
    ensures w.Steady(TermsOf(w.Now(), cluster, added, toRemove))
  {
    ChangeStarts(w, cluster, leases, groups, toRemove);
    PreparedIsSafe(w.Now(), cluster, added, toRemove);
  }

  /** From the start to the registered nodes. */
  method BeginChange(w: World, cluster: Cluster, toAdd: seq<NodeGroup>, leases: seq<Lease>,
                     ghost toRemove: seq<NodeInfo>, ghost added: seq<NodeInfo>)
    returns (ok: bool)
    requires w.Startable(cluster) && |leases| == |toAdd| && FreshLeases(cluster.nodes, leases)
    requires (forall l | l in toRemove :: l in cluster.nodes) && (toAdd != [] || toRemove != [])
    requires added == DeployedNodes(leases, toAdd, IsColumnar(cluster.nodes))
    modifies w`failed, w`containers, w`certified, w`registrations, w`pending, w`history
    ensures !ok ==> Ends(w, false, cluster, old(w.Now()), old(w.registrations), toAdd, toRemove, leases)
    ensures ok ==> Registering(w, cluster, old(w.Now()), added, toRemove)
                   && w.registrations == Registered(old(w.registrations), leases, toAdd)
  {
    ghost var start := w.Now();
    ChangeIsSafe(w, cluster, leases, toAdd, toRemove, added);
    ok := PrepareChange(w, cluster, toAdd, leases, added, TermsOf(start, cluster, added, toRemove));
    FewerLeave(cluster.nodes, toRemove, w.containers);
  }

  /** The run of a change that is not empty. */
  method RunChange(w: World, cluster: Cluster, toAdd: seq<NodeGroup>, toRemove: seq<NodeInfo>, leases: seq<Lease>)
    returns (ok: bool)
    requires w.Startable(cluster) && |leases| == |toAdd| && FreshLeases(cluster.nodes, leases)
    requires (forall l | l in toRemove :: l in cluster.nodes) && (toAdd != [] || toRemove != [])
    modifies w
    ensures Ends(w, ok, cluster, old(w.Now()), old(w.registrations), toAdd, toRemove, leases)
  {
    ghost var start, added := w.Now(), DeployedNodes(leases, toAdd, IsColumnar(cluster.nodes));
    ok := BeginChange(w, cluster, toAdd, leases, toRemove, added);
    if !ok { return; }
    ok := EndChange(w, cluster, toAdd, toRemove, leases, added, start, old(w.registrations));
  }

  /** From the registered nodes to the end, in terms of the whole run. */
  method EndChange(w: World, cluster: Cluster, toAdd: seq<NodeGroup>, toRemove: seq<NodeInfo>, ghost leases: seq<Lease>,
                   ghost added: seq<NodeInfo>, ghost start: Routing, ghost registrations: map<Ipv4, Registration>)
    returns (ok: bool)
    requires |leases| == |toAdd| && (toAdd != [] || toRemove != [])
    requires added == DeployedNodes(leases, toAdd, IsColumnar(cluster.nodes))
    requires Registering(w, cluster, start, added, toRemove)
    requires w.registrations == Registered(registrations, leases, toAdd)
    modifies w`failed, w`containers, w`members, w`pending, w`active, w`passive, w`dns, w`history
    ensures Ends(w, ok, cluster, start, registrations, toAdd, toRemove, leases)
  {
    ok := FinishChange(w, cluster, toRemove, toAdd != [], added, start);
  }

  lemma IdleIsSafe(r: Routing, cluster: Cluster)
    ensures Safe(r, TermsOf(r, cluster, [], [])) && AllSafe([r], TermsOf(r, cluster, [], []))
  {
  }

  /** Adds and removes nodes of any cluster whose containers were listed, whatever an earlier run left behind.
      At every step, and wherever the run fails, each promise is kept whose condition held at the start; a run that
      succeeds keeps exactly those. It succeeds exactly when nothing failed, some staying node can drive the rebalance
      and no balancer that is still needed is removed. Then everything routes to exactly the nodes that stay plus the
      new ones. However it ends, the next run may start from there. */
  method AddRemoveNodes(w: World, cluster: Cluster, toAdd: seq<NodeGroup>, toRemove: seq<NodeInfo>, leases: seq<Lease>)
    returns (ok: bool, nodeIds: seq<string>)
    requires w.Startable(cluster) && |leases| == |toAdd| && FreshLeases(cluster.nodes, leases)
    requires forall l | l in toRemove :: l in cluster.nodes
    modifies w
    ensures Ends(w, ok, cluster, old(w.Now()), old(w.registrations), toAdd, toRemove, leases)
    ensures ok ==> |nodeIds| == |leases| && forall i | 0 <= i < |leases| :: nodeIds[i] == leases[i].nodeId
  {
    nodeIds := [];
    if toAdd == [] && toRemove == [] {
      IdleIsSafe(w.Now(), cluster);
      assert DeployedNodes(leases, toAdd, IsColumnar(cluster.nodes)) == [];
      return true, [];
    }
    ok := RunChange(w, cluster, toAdd, toRemove, leases);
    if !ok { return; }
    nodeIds := DeployedIds(leases);
  }

  // ----- the end of a run, container by container -----

  /** The container that a lease was used for: a node of the cluster's type and of the version its group asks for. */
  ghost predicate IsNew(n: NodeInfo, lease: Lease, group: NodeGroup, nodes: seq<NodeInfo>) {
    && n.nodeId == lease.nodeId && n.containerId == lease.containerId && n.address == lease.address
    && n.version == group.version && n.otp == "" && n.services == []
    && if exists m :: m in nodes && m.kind.ColumnarNode? then n.kind.ColumnarNode? else n.kind.ServerNode?
  }

  lemma DeployedIsNew(nodes: seq<NodeInfo>, n: NodeInfo, leases: seq<Lease>, groups: seq<NodeGroup>)
    requires |leases| == |groups|
    ensures n in DeployedNodes(leases, groups, IsColumnar(nodes))
            <==> exists i | 0 <= i < |leases| :: IsNew(n, leases[i], groups[i], nodes)
  {
    var added := DeployedNodes(leases, groups, IsColumnar(nodes));
    forall i | 0 <= i < |leases| ensures added[i] == n <==> IsNew(n, leases[i], groups[i], nodes) {}
  }

  /** Exactly the staying containers and one for each lease. */
  ghost predicate HasExactly(containers: seq<NodeInfo>, nodes: seq<NodeInfo>, toRemove: seq<NodeInfo>,
                             leases: seq<Lease>, groups: seq<NodeGroup>)
    requires |leases| == |groups|
  {
    forall n :: n in containers <==>
      (n in nodes && n !in toRemove) || exists i | 0 <= i < |leases| :: IsNew(n, leases[i], groups[i], nodes)
  }

  lemma FinalContainers(nodes: seq<NodeInfo>, toRemove: seq<NodeInfo>, leases: seq<Lease>, groups: seq<NodeGroup>)
    requires |leases| == |groups| && FreshLeases(nodes, leases) && forall l | l in toRemove :: l in nodes
    ensures HasExactly(Keep(nodes + DeployedNodes(leases, groups, IsColumnar(nodes)), toRemove), nodes, toRemove,
                       leases, groups)
  {
    var added := DeployedNodes(leases, groups, IsColumnar(nodes));
    KeepKeeps(nodes + added, toRemove);
    forall n ensures n in Keep(nodes + added, toRemove) <==>
      (n in nodes && n !in toRemove) || exists i | 0 <= i < |leases| :: IsNew(n, leases[i], groups[i], nodes)
    {
      DeployedIsNew(nodes, n, leases, groups);
      if n in added {
        var i :| 0 <= i < |leases| && IsNew(n, leases[i], groups[i], nodes);
        assert leases[i] in leases && n !in nodes;
      }
    }
  }

  /** Each lease's node is registered with the server group and services of its own group. */
  ghost predicate RegisteredAs(registrations: map<Ipv4, Registration>, leases: seq<Lease>, groups: seq<NodeGroup>)
    requires |leases| == |groups|
  {
    forall i | 0 <= i < |leases| ::
      && leases[i].address in registrations
      && registrations[leases[i].address] == Registration(groups[i].serverGroup, groups[i].services)
  }

  lemma FinalRegistrations(before: map<Ipv4, Registration>, leases: seq<Lease>, groups: seq<NodeGroup>)
    requires |leases| == |groups| && DistinctLeases(leases)
    ensures RegisteredAs(Registered(before, leases, groups), leases, groups)
  {
    forall i | 0 <= i < |leases|
      ensures leases[i].address in Registered(before, leases, groups)
      ensures Registered(before, leases, groups)[leases[i].address]
              == Registration(groups[i].serverGroup, groups[i].services)
    {
      RegisteredAt(before, leases, groups, i);
    }
  }

  /** Every balancer of this kind lists the addresses of the server and columnar nodes, and no others. */
  ghost predicate BalancersList(balancers: map<string, seq<Ipv4>>, kind: NodeKind, nodes: seq<NodeInfo>) {
    forall b | b in nodes && b.kind == kind ::
      && b.containerId in balancers
      && forall a :: a in balancers[b.containerId] <==>
           exists n :: n in nodes && (n.kind.ServerNode? || n.kind.ColumnarNode?) && n.address == a
  }

  lemma FinalTargets(balancers: map<string, seq<Ipv4>>, kind: NodeKind, nodes: seq<NodeInfo>)
    requires Target(balancers, nodes, kind)
    ensures BalancersList(balancers, kind, nodes)
  {
    AddressesAreMembers(nodes);
    forall b | b in nodes && b.kind == kind ensures b.containerId in balancers {
      assert b.containerId in BalancersOf(nodes, kind);
    }
  }

  /** What a successful run leaves: containers, registrations and balancers. */
  lemma EndsMeans(w: World, cluster: Cluster, start: Routing, registrations: map<Ipv4, Registration>,
                  toAdd: seq<NodeGroup>, toRemove: seq<NodeInfo>, leases: seq<Lease>)
    requires |leases| == |toAdd| && (toAdd != [] || toRemove != []) && FreshLeases(cluster.nodes, leases)
    requires Ends(w, true, cluster, start, registrations, toAdd, toRemove, leases)
    requires forall l | l in toRemove :: l in cluster.nodes
    ensures HasExactly(w.containers, cluster.nodes, toRemove, leases, toAdd)
    ensures RegisteredAs(w.registrations, leases, toAdd)
    ensures BalancersList(w.active, Haproxy, w.containers) && BalancersList(w.passive, Nginx, w.containers)
  {
    FinalContainers(cluster.nodes, toRemove, leases, toAdd);
    FinalRegistrations(registrations, leases, toAdd);
    FinalTargets(w.active, Haproxy, w.containers);
    FinalTargets(w.passive, Nginx, w.containers);
  }

  // ----- from one run to the next -----

  lemma RelistedKinds(before: seq<NodeInfo>, after: seq<NodeInfo>)
    requires Relisted(before, after)
    ensures forall kind :: BalancersOf(after, kind) == BalancersOf(before, kind)
    ensures IsColumnar(after) == IsColumnar(before)
  {
  }

  /** Wherever a run ended, failed or not, listing the cluster again makes it the start of the next, whatever the nodes
      report by then, as long as no two report the same name. */
  method ListAgain(w: World, cluster: Cluster) returns (next: Cluster)
    requires w.Coherent(cluster.dnsEnabled) && w.containers != []
    modifies w`containers, w`history, w`failed
    ensures Relisted(old(w.containers), w.containers) && next == cluster.(nodes := w.containers)
    ensures DistinctOtps(w.containers) ==> w.Startable(next)
  {
    ghost var before := w.containers;
    w.Relist();
    RelistedKinds(before, w.containers);
    next := cluster.(nodes := w.containers);
  }
}
