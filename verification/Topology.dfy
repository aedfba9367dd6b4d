/** The containers that make up one cluster, as Docker and ns_server describe them. */
module Topology {

  type Ipv4 = a: nat | a < 0x1_0000_0000

  datatype NodeKind = ServerNode | ColumnarNode | Nginx | Haproxy | OtherUtility
  {
    /** Every other container is a utility: a load balancer or a mock service. */
    predicate RunsServer() {
      ServerNode? || ColumnarNode?
    }
  }

  /** `otp` and `services` are what the node itself reported; both are empty when it did not answer. */
  datatype NodeInfo = NodeInfo(
    nodeId: string,
    kind: NodeKind,
    containerId: string,
    address: Ipv4,
    version: string,
    otp: string,
    services: seq<string>)
  {
    predicate IsClusterNode() {
      kind.RunsServer()
    }
  }

  predicate IsColumnar(nodes: seq<NodeInfo>) {
    exists n | n in nodes :: n.kind.ColumnarNode?
  }

  /** The addresses a load balancer or DNS record lists for `nodes`: cluster nodes only, in order. */
  function ClusterAddresses(nodes: seq<NodeInfo>): seq<Ipv4> {
    if nodes == [] then []
    else
      var n := nodes[|nodes| - 1];
      ClusterAddresses(nodes[..|nodes| - 1]) + if n.IsClusterNode() then [n.address] else []
  }

  lemma ClusterAddressesNext(nodes: seq<NodeInfo>, i: nat)
    requires i < |nodes|
    ensures ClusterAddresses(nodes[..i + 1])
            == ClusterAddresses(nodes[..i]) + if nodes[i].IsClusterNode() then [nodes[i].address] else []
  {
    assert nodes[..i + 1][..i] == nodes[..i];
  }

  ghost function MemberAddresses(nodes: seq<NodeInfo>): set<Ipv4> {
    set n | n in nodes && n.IsClusterNode() :: n.address
  }

  lemma AddressesOfOneMore(nodes: seq<NodeInfo>, n: NodeInfo)
    ensures ClusterAddresses(nodes + [n]) == ClusterAddresses(nodes) + if n.IsClusterNode() then [n.address] else []
  {
    assert (nodes + [n])[..|nodes|] == nodes;
  }

  /** Addresses are listed in the order of the nodes: those of server and columnar nodes, and no others. */
  lemma {:induction false} AddressesInOrder(nodes: seq<NodeInfo>, more: seq<NodeInfo>, n: NodeInfo)
    ensures ClusterAddresses(nodes + more) == ClusterAddresses(nodes) + ClusterAddresses(more)
    ensures ClusterAddresses([n]) == if n.kind.ServerNode? || n.kind.ColumnarNode? then [n.address] else []
  {
    AddressesOfOneMore([], n);
    if more == [] {
      assert nodes + more == nodes;
    } else {
      var front, last := more[..|more| - 1], more[|more| - 1];
      assert more == front + [last] && nodes + more == (nodes + front) + [last];
      AddressesInOrder(nodes, front, n);
      AddressesOfOneMore(nodes + front, last);
      AddressesOfOneMore(front, last);
    }
  }

  lemma {:induction false} AddressesAreMembers(nodes: seq<NodeInfo>)
    ensures forall a :: a in ClusterAddresses(nodes) <==> a in MemberAddresses(nodes)
  {
    if nodes != [] {
      var k := |nodes| - 1;
      AddressesAreMembers(nodes[..k]);
      assert nodes == nodes[..k] + [nodes[k]];
      forall a ensures a in ClusterAddresses(nodes) <==> a in MemberAddresses(nodes) {
        assert a in MemberAddresses(nodes) <==>
               a in MemberAddresses(nodes[..k]) || (nodes[k].IsClusterNode() && a == nodes[k].address);
      }
    }
  }

  ghost predicate DistinctContainers(nodes: seq<NodeInfo>) {
    forall i, j | 0 <= i < j < |nodes| :: nodes[i].containerId != nodes[j].containerId
  }

  ghost predicate DistinctAddresses(nodes: seq<NodeInfo>) {
    forall i, j | 0 <= i < j < |nodes| :: nodes[i].address != nodes[j].address
  }

  ghost predicate DistinctIds(nodes: seq<NodeInfo>) {
    forall i, j | 0 <= i < j < |nodes| :: nodes[i].nodeId != nodes[j].nodeId
  }

  /** Two nodes that report an OTP name never report the same one. */
  ghost predicate DistinctOtps(nodes: seq<NodeInfo>) {
    forall i, j | 0 <= i < j < |nodes| && nodes[i].otp != "" :: nodes[i].otp != nodes[j].otp
  }
}
