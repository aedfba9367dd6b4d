/** Grouping the labelled containers of a Docker host into clusters. */
module ClusterListing {
  import opened Topology
  import Bags

  datatype Details = Details(creator: string, owner: string, purpose: string, dnsName: string, dinoCerts: bool)

  const NO_DETAILS := Details("", "", "", "", false)

  /** A container as its labels describe it. Expiry 0 is the zero time: the container does not expire. */
  datatype Container = Container(clusterId: string, nodeId: string, kind: NodeKind, name: string, expiry: int,
                                 details: Details)

  /** What is known about a cluster. */
  datatype Record = Record(id: string, nodes: seq<Container>, columnar: bool, expiry: int, details: Details)

  class ClusterInfo {
    const id: string
    var columnar: bool
    var expiry: int
    var details: Details
    var nodes: seq<Container>

    constructor (id: string)
      ensures View() == NewRecord(id)
    {
      this.id := id;
      columnar, expiry, details, nodes := false, 0, NO_DETAILS, [];
    }

    ghost function View(): Record
      reads this
    {
      Record(id, nodes, columnar, expiry, details)
    }

    /** Adds a container. Cluster nodes also say who owns the cluster and for how long. */
    method Include(c: Container)
      modifies this
      ensures View() == Extended(old(View()), c)
    {
      nodes := nodes + [c];
      if c.kind.RunsServer() {
        details := c.details;
        if c.expiry != 0 && c.expiry > expiry { expiry := c.expiry; }
      }
      if c.kind.ColumnarNode? { columnar := true; }
    }
  }

  function NewRecord(id: string): Record {
    Record(id, [], false, 0, NO_DETAILS)
  }

  function Extended(r: Record, c: Container): Record {
    Record(r.id, r.nodes + [c], r.columnar || c.kind.ColumnarNode?,
           if c.kind.RunsServer() && c.expiry > r.expiry && c.expiry != 0 then c.expiry else r.expiry,
           if c.kind.RunsServer() then c.details else r.details)
  }

  /** The ids that occur, in the order in which they occur first. */
  function Ids(containers: seq<Container>): seq<string> {
    if containers == [] then []
    else
      var k := |containers| - 1;
      var before := Ids(containers[..k]);
      if containers[k].clusterId in before then before else before + [containers[k].clusterId]
  }

  /** What the containers that carry this id say about their cluster. */
  function RecordOf(containers: seq<Container>, id: string): Record {
    if containers == [] then NewRecord(id)
    else
      var k := |containers| - 1;
      var before := RecordOf(containers[..k], id);
      if containers[k].clusterId == id then Extended(before, containers[k]) else before
  }

  // ----- the listing -----

  /** The cluster objects are separate and hold the records of the containers seen so far. */
  ghost predicate Lists(clusters: seq<ClusterInfo>, containers: seq<Container>)
    reads clusters
  {
    && |clusters| == |Ids(containers)|
    && (forall i, j | 0 <= i < j < |clusters| :: clusters[i] != clusters[j])
    && forall i | 0 <= i < |clusters| :: clusters[i].View() == RecordOf(containers, Ids(containers)[i])
  }

  /** The cluster with this id, or a new one at the end of the list. */
  method FindCluster(clusters: seq<ClusterInfo>, containers: seq<Container>, id: string)
    returns (found: seq<ClusterInfo>, cluster: ClusterInfo, ghost at: nat)
    requires Lists(clusters, containers)
    ensures if id in Ids(containers) then found == clusters else found == clusters + [cluster] && fresh(cluster)
    ensures at < |found| && found[at] == cluster && cluster.View() == RecordOf(containers, id)
    ensures id in Ids(containers) ==> Ids(containers)[at] == id
  {
    for i := 0 to |clusters|
      invariant forall j | 0 <= j < i :: Ids(containers)[j] != id
    {
      RecordKeepsId(containers, Ids(containers)[i]);
      if clusters[i].id == id { return clusters, clusters[i], i; }
    }
    assert id !in Ids(containers);
    cluster := new ClusterInfo(id);
    RecordOfStranger(containers, id);
    found, at := clusters + [cluster], |clusters|;
  }

  lemma {:induction false} RecordKeepsId(containers: seq<Container>, id: string)
    ensures RecordOf(containers, id).id == id
  {
    if containers != [] { RecordKeepsId(containers[..|containers| - 1], id); }
  }

  lemma {:induction false} RecordOfStranger(containers: seq<Container>, id: string)
    requires id !in Ids(containers)
    ensures RecordOf(containers, id) == NewRecord(id)
  {
    if containers != [] { RecordOfStranger(containers[..|containers| - 1], id); }
  }

  /** One cluster object for each id that occurs, holding exactly what its containers say. */
  method ListClusters(containers: seq<Container>) returns (clusters: seq<ClusterInfo>)
    ensures fresh(set c | c in clusters)
    ensures Lists(clusters, containers)
  {
    clusters := [];
    for i := 0 to |containers|
      invariant fresh(set c | c in clusters)
      invariant Lists(clusters, containers[..i])
    {
      clusters := ListOne(clusters, containers[..i], containers[i]);
      assert containers[..i] + [containers[i]] == containers[..i + 1];
    }
    assert containers[..|containers|] == containers;
  }

  lemma ListedNext(containers: seq<Container>, c: Container)
    ensures Ids(containers + [c]) == Ids(containers) + if c.clusterId in Ids(containers) then [] else [c.clusterId]
    ensures forall id :: RecordOf(containers + [c], id)
                      == if c.clusterId == id then Extended(RecordOf(containers, id), c) else RecordOf(containers, id)
  {
  }

  /** Puts one more container into its cluster. */
  method ListOne(clusters: seq<ClusterInfo>, containers: seq<Container>, c: Container)
    returns (result: seq<ClusterInfo>)
    requires Lists(clusters, containers)
    modifies set o | o in clusters
    ensures forall o | o in result :: o in clusters || fresh(o)
    ensures Lists(result, containers + [c])
  {
    var cluster;
    ghost var at;
    result, cluster, at := FindCluster(clusters, containers, c.clusterId);
    IdsDistinct(containers);
    ListedNext(containers, c);
    cluster.Include(c);
  }

  // ----- what the listing means -----

  lemma {:induction false} IdsDistinct(containers: seq<Container>)
    ensures forall i, j | 0 <= i < j < |Ids(containers)| :: Ids(containers)[i] != Ids(containers)[j]
    ensures forall id :: id in Ids(containers) <==> exists c :: c in containers && c.clusterId == id
  {
    if containers != [] {
      var k := |containers| - 1;
      IdsDistinct(containers[..k]);
      assert containers == containers[..k] + [containers[k]];
      forall id ensures id in Ids(containers) <==> exists c :: c in containers && c.clusterId == id {
        assert id in Ids(containers) <==> id in Ids(containers[..k]) || id == containers[k].clusterId;
        if exists c :: c in containers && c.clusterId == id {
          var c :| c in containers && c.clusterId == id;
          assert c in containers[..k] || c == containers[k];
        }
      }
    }
  }

  /** Each container is in the cluster with its id, as often as it was listed, and in no other. */
  lemma {:induction false} EachInItsCluster(containers: seq<Container>, id: string, c: Container)
    ensures multiset(RecordOf(containers, id).nodes)[c] == if c.clusterId == id then multiset(containers)[c] else 0
  {
    if containers != [] {
      var k := |containers| - 1;
      EachInItsCluster(containers[..k], id, c);
      Bags.SplitLast(containers);
      Bags.Extended(RecordOf(containers[..k], id).nodes, containers[k]);
    }
  }

  /** The expiry is the latest one of the cluster nodes, and zero if none of them expires after the zero time. */
  lemma {:induction false} ExpiryIsLatest(containers: seq<Container>, id: string)
    ensures var r := RecordOf(containers, id);
      && r.expiry >= 0
      && (forall c | c in r.nodes && (c.kind.ServerNode? || c.kind.ColumnarNode?) :: c.expiry <= r.expiry)
      && (r.expiry > 0 ==>
            exists c :: c in r.nodes && (c.kind.ServerNode? || c.kind.ColumnarNode?) && c.expiry == r.expiry)
  {
    if containers != [] {
      var k := |containers| - 1;
      ExpiryIsLatest(containers[..k], id);
      if containers[k].clusterId == id {
        var before, last := RecordOf(containers[..k], id), containers[k];
        assert last in before.nodes + [last];
        if before.expiry > 0 {
          var c :| c in before.nodes && (c.kind.ServerNode? || c.kind.ColumnarNode?) && c.expiry == before.expiry;
          assert c in before.nodes + [last];
        }
      }
    }
  }

  /** The cluster is a columnar one if and only if it has a columnar node. */
  lemma {:induction false} ColumnarIfAny(containers: seq<Container>, id: string)
    ensures RecordOf(containers, id).columnar
            <==> exists c :: c in RecordOf(containers, id).nodes && c.kind.ColumnarNode?
  {
    if containers != [] {
      var k := |containers| - 1;
      ColumnarIfAny(containers[..k], id);
      if containers[k].clusterId == id {
        var before, last := RecordOf(containers[..k], id), containers[k];
        assert last in before.nodes + [last];
        if before.columnar {
          var c :| c in before.nodes && c.kind.ColumnarNode?;
          assert c in before.nodes + [last];
        }
      }
    }
  }

  /** The position of the last of these containers that is a cluster node, or -1. */
  ghost predicate LastNode(nodes: seq<Container>, at: int) {
    && -1 <= at < |nodes|
    && (at >= 0 ==> (nodes[at].kind.ServerNode? || nodes[at].kind.ColumnarNode?))
    && forall i | at < i < |nodes| :: !nodes[i].kind.ServerNode? && !nodes[i].kind.ColumnarNode?
  }

  /** Owner, purpose and the other details are those of the cluster node that is listed last; without one they are
      empty. */
  lemma {:induction false} DetailsOfLastNode(containers: seq<Container>, id: string) returns (at: int)
    ensures var r := RecordOf(containers, id);
            && LastNode(r.nodes, at)
            && r.details == if at >= 0 then r.nodes[at].details else Details("", "", "", "", false)
  {
    at := -1;
    if containers != [] {
      var k := |containers| - 1;
      at := DetailsOfLastNode(containers[..k], id);
      if containers[k].clusterId == id && containers[k].kind.RunsServer() {
        at := |RecordOf(containers, id).nodes| - 1;
      }
    }
  }

  /** The containers of a cluster, in the order of the listing. */
  lemma {:induction false} NodesInOrder(containers: seq<Container>, more: seq<Container>, c: Container, id: string)
    ensures RecordOf(containers + more, id).nodes == RecordOf(containers, id).nodes + RecordOf(more, id).nodes
    ensures RecordOf([c], id).nodes == if c.clusterId == id then [c] else []
  {
    assert [c][..0] == [];
    if more == [] {
      assert containers + more == containers;
    } else {
      var k := |more| - 1;
      assert (containers + more)[..|containers| + k] == containers + more[..k];
      NodesInOrder(containers, more[..k], c, id);
    }
  }

  /** Clusters are listed in the order of their first containers: more containers only add clusters at the end. */
  lemma {:induction false} ListedInOrder(containers: seq<Container>, k: nat)
    requires k <= |containers|
    ensures Ids(containers[..k]) <= Ids(containers)
  {
    if k < |containers| {
      var n := |containers| - 1;
      ListedInOrder(containers[..n], k);
      assert containers[..n][..k] == containers[..k];
    } else {
      assert containers[..k] == containers;
    }
  }

  /** Neither the partition nor what it says of type and expiry depends on the order in which containers are listed. */
  lemma OrderIrrelevant(containers: seq<Container>, other: seq<Container>, id: string)
    requires multiset(containers) == multiset(other)
    ensures multiset(RecordOf(containers, id).nodes) == multiset(RecordOf(other, id).nodes)
    ensures RecordOf(containers, id).columnar == RecordOf(other, id).columnar
    ensures RecordOf(containers, id).expiry == RecordOf(other, id).expiry
  {
    var a, b := RecordOf(containers, id).nodes, RecordOf(other, id).nodes;
    forall c ensures multiset(a)[c] == multiset(b)[c] {
      EachInItsCluster(containers, id, c);
      EachInItsCluster(other, id, c);
    }
    assert multiset(a) == multiset(b);
    assert forall c :: c in a <==> c in multiset(a);
    assert forall c :: c in b <==> c in multiset(b);
    ColumnarIfAny(containers, id);
    ColumnarIfAny(other, id);
    ExpiryIsLatest(containers, id);
    ExpiryIsLatest(other, id);
  }
}
