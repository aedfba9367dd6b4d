/** Clusters on which a promise is broken, or a run must fail, although no operation fails. */
module Examples {
  import opened Topology
  import opened ClusterDef
  import opened Membership
  import opened RoutingSteps
  import opened AddRemoveProtocol
  import opened Promises
  import opened Modification

  /** An empty OTP name stands for a node that did not answer. */
  function Node(id: string, kind: NodeKind, address: Ipv4, otp: string): NodeInfo {
    NodeInfo(id, kind, id, address, "", otp, [])
  }

  /** A server that answered, a balancer, and a server that did not answer. */
  function Nodes(server: string, balancer: string, kind: NodeKind, silent: string): seq<NodeInfo> {
    [Node(server, ServerNode, 1, server), Node(balancer, kind, 2, ""), Node(silent, ServerNode, 3, "")]
  }

  lemma NodesAre(server: string, balancer: string, kind: NodeKind, silent: string)
    requires server != "" && !kind.ServerNode? && !kind.ColumnarNode?
    ensures var nodes := Nodes(server, balancer, kind, silent);
            && nodes[0] in nodes && nodes[1] in nodes && nodes[2] in nodes
            && MemberAddresses(nodes) == {1, 3}
            && BalancersOf(nodes, Haproxy) == (if kind.Haproxy? then {balancer} else {})
            && BalancersOf(nodes, Nginx) == (if kind.Nginx? then {balancer} else {})
  {
  }

  /** The server drives the rebalance whenever it is not the one to leave. */
  lemma ServerControls(server: string, balancer: string, kind: NodeKind, silent: string, toRemove: seq<NodeInfo>)
    requires server != "" && forall n | n in toRemove :: n.otp == ""
    ensures HasControlNode(Nodes(server, balancer, kind, silent), toRemove)
  {
    var nodes := Nodes(server, balancer, kind, silent);
    assert nodes[0] in nodes && nodes[0].otp != "";
  }

  lemma NodesFit(server: string, balancer: string, kind: NodeKind, silent: string, newcomer: string)
    requires server != balancer && server != silent && balancer != silent
    requires newcomer != server && newcomer != balancer && newcomer != silent
    ensures var nodes, added := Nodes(server, balancer, kind, silent), [Node(newcomer, ServerNode, 4, "")];
            Fits(nodes, added, []) && Distinct(nodes)
  {
  }

  // ----- a stray container -----

  /** The server is the only member, and nginx lists it. */
  ghost function BehindNginx(nginx: string, running: set<Ipv4>): Routing {
    Routing(running, {1}, {}, {}, map[], map[nginx := [1]], map[])
  }

  lemma BehindNginxIsSafe(nginx: string, running: set<Ipv4>, cluster: Cluster)
    requires 1 in running && !cluster.usingCerts
    ensures SafeStart(BehindNginx(nginx, running), cluster)
  {
  }

  lemma StrayStarts(server: string, nginx: string, stray: string, newcomer: string)
    requires server != "" && server != nginx && server != stray && nginx != stray
    requires newcomer != server && newcomer != nginx && newcomer != stray
    ensures Starts(BehindNginx(nginx, {1, 3}), Cluster(Nodes(server, nginx, Nginx, stray), false, false),
                   [Node(newcomer, ServerNode, 4, "")], [])
  {
    NodesAre(server, nginx, Nginx, stray);
    NodesFit(server, nginx, Nginx, stray, newcomer);
    KeepAll(Nodes(server, nginx, Nginx, stray) + [Node(newcomer, ServerNode, 4, "")], []);
  }

  lemma StrayIsRouted(server: string, nginx: string, stray: string, newcomer: string)
    requires server != "" && server != nginx && server != stray && nginx != stray
    requires newcomer != server && newcomer != nginx && newcomer != stray
    ensures var cluster, added := Cluster(Nodes(server, nginx, Nginx, stray), false, false),
            [Node(newcomer, ServerNode, 4, "")];
            !PassiveWithin(Moved(BehindNginx(nginx, {1, 3}), cluster, added, []))
  {
    var start, cluster, added := BehindNginx(nginx, {1, 3}), Cluster(Nodes(server, nginx, Nginx, stray), false, false),
        [Node(newcomer, ServerNode, 4, "")];
    StrayStarts(server, nginx, stray, newcomer);
    NodesAre(server, nginx, Nginx, stray);
    BehindNginxIsSafe(nginx, {1, 3}, cluster);
    AfterFailedDeployment(start, cluster, added, [], cluster.nodes[2]);
    MovedPassiveExactly(start, cluster, added);
  }

  /** One server behind nginx. A deployment fails but leaves its container behind; the next addition, which nothing
      keeps from completing, points nginx at a container outside the cluster. */
  lemma StrayExample(server: string, nginx: string, stray: string, newcomer: string)
    requires server != "" && server != nginx && server != stray && nginx != stray
    requires newcomer != server && newcomer != nginx && newcomer != stray
    ensures var settled, start := BehindNginx(nginx, {1}), BehindNginx(nginx, {1, 3});
            var cluster, added := Cluster(Nodes(server, nginx, Nginx, stray), false, false),
                [Node(newcomer, ServerNode, 4, "")];
            && SafeStart(settled, cluster) && settled.members == settled.running
            && start == settled.(running := settled.running + {3})
            && Starts(start, cluster, added, []) && SafeStart(start, cluster)
            && HasControlNode(cluster.nodes, []) && !RemovesBalancer(true, [])
            && !PassiveWithin(Moved(start, cluster, added, []))
  {
    var cluster := Cluster(Nodes(server, nginx, Nginx, stray), false, false);
    StrayStarts(server, nginx, stray, newcomer);
    ServerControls(server, nginx, Nginx, stray, []);
    BehindNginxIsSafe(nginx, {1}, cluster);
    BehindNginxIsSafe(nginx, {1, 3}, cluster);
    StrayIsRouted(server, nginx, stray, newcomer);
  }

  // ----- a member that does not answer -----

  /** Both servers are members, and haproxy lists them. */
  ghost function BehindHaproxy(haproxy: string): Routing {
    Routing({1, 3}, {1, 3}, {}, {}, map[haproxy := [1, 3]], map[], map[])
  }

  lemma BehindHaproxyStarts(server: string, haproxy: string, silent: string, toRemove: seq<NodeInfo>)
    requires server != "" && server != haproxy && server != silent && haproxy != silent && toRemove != []
    requires forall n | n in toRemove :: n in Nodes(server, haproxy, Haproxy, silent)
    ensures var start, cluster := BehindHaproxy(haproxy),
            Cluster(Nodes(server, haproxy, Haproxy, silent), false, false);
            Starts(start, cluster, [], toRemove) && SafeStart(start, cluster)
  {
    var nodes := Nodes(server, haproxy, Haproxy, silent);
    NodesAre(server, haproxy, Haproxy, silent);
    NodesFit(server, haproxy, Haproxy, silent, server + haproxy + silent + "+");
    assert nodes + [] == nodes;
  }

  /** Removing the member that does not answer completes, leaves it a member, and no balancer covers it. */
  lemma SilentExample(server: string, haproxy: string, silent: string)
    requires server != "" && server != haproxy && server != silent && haproxy != silent
    ensures var start, cluster := BehindHaproxy(haproxy),
            Cluster(Nodes(server, haproxy, Haproxy, silent), false, false);
            var toRemove := [cluster.nodes[2]];
            && Starts(start, cluster, [], toRemove) && SafeStart(start, cluster)
            && HasControlNode(cluster.nodes, toRemove) && !RemovesBalancer(false, toRemove)
            && !ActiveCovers(Moved(start, cluster, [], toRemove))
            && !(Moved(start, cluster, [], toRemove).members <= Moved(start, cluster, [], toRemove).running)
  {
    var start, cluster := BehindHaproxy(haproxy), Cluster(Nodes(server, haproxy, Haproxy, silent), false, false);
    var toRemove := [cluster.nodes[2]];
    NodesAre(server, haproxy, Haproxy, silent);
    BehindHaproxyStarts(server, haproxy, silent, toRemove);
    ServerControls(server, haproxy, Haproxy, silent, toRemove);
    AccountedWhenSettled(start, cluster.nodes, [], toRemove);
    assert toRemove[0] in toRemove;
    MovedCovers(start, cluster, [], toRemove);
    MembersExactly(start, cluster, [], toRemove);
  }

  // ----- a balancer that is removed -----

  /** Removing the health-checked balancer rebalances, removes the container, and then fails to write to it. */
  lemma RemovedBalancerExample(server: string, haproxy: string, silent: string)
    requires server != "" && server != haproxy && server != silent && haproxy != silent
    ensures var start, cluster := BehindHaproxy(haproxy),
            Cluster(Nodes(server, haproxy, Haproxy, silent), false, false);
            var toRemove := [cluster.nodes[1]];
            && Starts(start, cluster, [], toRemove) && SafeStart(start, cluster)
            && HasControlNode(cluster.nodes, toRemove) && RemovesBalancer(false, toRemove)
            && LacksBalancer(cluster.nodes, Cleared(start, cluster, [], toRemove), true, false)
  {
    var start, cluster := BehindHaproxy(haproxy), Cluster(Nodes(server, haproxy, Haproxy, silent), false, false);
    var toRemove := [cluster.nodes[1]];
    NodesAre(server, haproxy, Haproxy, silent);
    BehindHaproxyStarts(server, haproxy, silent, toRemove);
    ServerControls(server, haproxy, Haproxy, silent, toRemove);
    assert toRemove[0] in toRemove;
    LacksAfterRemoval(start, cluster, [], toRemove);
  }
}
