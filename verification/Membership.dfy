/** Adding and removing cluster nodes while balancers and DNS keep serving traffic. */
module Membership {
  import opened Topology
  import opened ClusterDef

  datatype RecordKind = HostRecord | ServiceRecord | SecureServiceRecord

  /** A DNS record value; `port` is 0 for a plain address. */
  datatype RecordData = RecordData(port: nat, address: Ipv4)

  datatype Registration = Registration(serverGroup: string, services: seq<Service>)

  /** What Docker hands out for one deployed container. */
  datatype Lease = Lease(nodeId: string, containerId: string, address: Ipv4)

  datatype Cluster = Cluster(nodes: seq<NodeInfo>, dnsEnabled: bool, usingCerts: bool)
  {
    function BalancerAddress(): Ipv4
      // 0.0.0.0 stands for "no balancer"
    {
      var active := FirstOfKind(nodes, Haproxy);
      if active != 0 then active else FirstOfKind(nodes, Nginx)
    }

    predicate ListsNodes() {
      NodesListed(IsColumnar(nodes), BalancerAddress())
    }
  }

  function FirstOfKind(nodes: seq<NodeInfo>, kind: NodeKind): Ipv4 {
    if nodes == [] then 0
    else if nodes[0].kind == kind then nodes[0].address
    else FirstOfKind(nodes[1..], kind)
  }

  /** Some load balancer runs, and every one has an address. */
  ghost predicate BehindBalancer(nodes: seq<NodeInfo>) {
    && (exists n :: n in nodes && (n.kind.Nginx? || n.kind.Haproxy?))
    && forall n | n in nodes && (n.kind.Nginx? || n.kind.Haproxy?) :: n.address != 0
  }

  lemma {:induction false} FirstOfKindMeans(nodes: seq<NodeInfo>, kind: NodeKind)
    ensures FirstOfKind(nodes, kind) != 0 ==>
              exists n :: n in nodes && n.kind == kind && n.address == FirstOfKind(nodes, kind)
    ensures (exists n :: n in nodes && n.kind == kind) && (forall n | n in nodes && n.kind == kind :: n.address != 0)
            ==> FirstOfKind(nodes, kind) != 0
  {
    if nodes != [] {
      assert nodes == [nodes[0]] + nodes[1..];
      FirstOfKindMeans(nodes[1..], kind);
    }
  }

  /** A cluster answers on the address of a balancer exactly if it has one; that of an active one if there is any. */
  lemma BalancerMeans(cluster: Cluster)
    ensures BehindBalancer(cluster.nodes) ==> cluster.BalancerAddress() != 0
    ensures (forall n | n in cluster.nodes :: !n.kind.Nginx? && !n.kind.Haproxy?) ==> cluster.BalancerAddress() == 0
    ensures BehindBalancer(cluster.nodes) && (exists n :: n in cluster.nodes && n.kind.Haproxy?) ==>
              exists n :: n in cluster.nodes && n.kind.Haproxy? && n.address == cluster.BalancerAddress()
  {
    FirstOfKindMeans(cluster.nodes, Haproxy);
    FirstOfKindMeans(cluster.nodes, Nginx);
  }

  /** Updates of this type never write to DNS: there is none, or it points at the balancer of a columnar cluster. */
  ghost predicate LeavesDns(cluster: Cluster, columnar: bool) {
    !cluster.dnsEnabled || (columnar && BehindBalancer(cluster.nodes))
  }

  /** DNS lists exactly the cluster nodes under this kind of record, all on this port. */
  ghost predicate ListsExactly(dns: map<RecordKind, seq<RecordData>>, kind: RecordKind, port: nat,
                               nodes: seq<NodeInfo>) {
    && kind in dns
    && (forall d | d in dns[kind] :: d.port == port)
    && (forall d | d in dns[kind] ::
          exists n :: n in nodes && (n.kind.ServerNode? || n.kind.ColumnarNode?) && n.address == d.address)
    && forall n | n in nodes && (n.kind.ServerNode? || n.kind.ColumnarNode?) ::
         RecordData(port, n.address) in dns[kind]
  }

  /** Where DNS must point once the cluster consists of the nodes `final`: at all of them, unless it is a columnar
      cluster, which needs no service records, and behind a balancer none at all. */
  ghost predicate DnsOn(dns: map<RecordKind, seq<RecordData>>, cluster: Cluster, final: seq<NodeInfo>) {
    var columnar := exists n :: n in cluster.nodes && n.kind.ColumnarNode?;
    && (cluster.dnsEnabled && (!columnar || forall n | n in cluster.nodes :: !n.kind.Nginx? && !n.kind.Haproxy?)
        ==> ListsExactly(dns, HostRecord, 0, final))
    && (cluster.dnsEnabled && !columnar
        ==> ListsExactly(dns, ServiceRecord, 11210, final) && ListsExactly(dns, SecureServiceRecord, 11207, final))
  }

  lemma RecordsListExactly(dns: map<RecordKind, seq<RecordData>>, kind: RecordKind, port: nat, nodes: seq<NodeInfo>)
    requires kind in dns && dns[kind] == Records(port, ClusterAddresses(nodes))
    ensures ListsExactly(dns, kind, port, nodes)
  {
    var addresses := ClusterAddresses(nodes);
    AddressesAreMembers(nodes);
    forall d | d in dns[kind]
      ensures d.port == port
      ensures exists n :: n in nodes && (n.kind.ServerNode? || n.kind.ColumnarNode?) && n.address == d.address
    {
      assert d.address in addresses && d.address in MemberAddresses(nodes);
      var n :| n in nodes && n.IsClusterNode() && n.address == d.address;
    }
    forall n | n in nodes && (n.kind.ServerNode? || n.kind.ColumnarNode?)
      ensures RecordData(port, n.address) in dns[kind]
    {
      assert n.address in MemberAddresses(nodes);
      var i :| 0 <= i < |addresses| && addresses[i] == n.address;
      assert Records(port, addresses)[i] == RecordData(port, n.address);
    }
  }

  /** The records of an update are where DNS must point. */
  lemma UpdateIsOn(dns: map<RecordKind, seq<RecordData>>, cluster: Cluster, final: seq<NodeInfo>)
    requires cluster.dnsEnabled
    ensures DnsOn(dns + RecordsFor(ClusterAddresses(final), IsColumnar(cluster.nodes), cluster.BalancerAddress()),
                  cluster, final)
  {
    var columnar, balancer := IsColumnar(cluster.nodes), cluster.BalancerAddress();
    var after := dns + RecordsFor(ClusterAddresses(final), columnar, balancer);
    BalancerMeans(cluster);
    if !columnar || balancer == 0 { RecordsListExactly(after, HostRecord, 0, final); }
    if !columnar {
      RecordsListExactly(after, ServiceRecord, 11210, final);
      RecordsListExactly(after, SecureServiceRecord, 11207, final);
    }
  }

  /** True when DNS lists the cluster nodes themselves rather than a load balancer. */
  predicate NodesListed(columnar: bool, balancer: Ipv4) {
    !columnar || balancer == 0
  }

  function Records(port: nat, addresses: seq<Ipv4>): (r: seq<RecordData>)
    ensures |r| == |addresses| && forall i | 0 <= i < |r| :: r[i] == RecordData(port, addresses[i])
  {
    seq(|addresses|, i requires 0 <= i < |addresses| => RecordData(port, addresses[i]))
  }

  /** The records an update of an existing cluster writes. */
  function RecordsFor(addresses: seq<Ipv4>, columnar: bool, balancer: Ipv4): map<RecordKind, seq<RecordData>> {
    (if NodesListed(columnar, balancer) then map[HostRecord := Records(0, addresses)] else map[])
    + (if columnar then map[]
       else map[ServiceRecord := Records(11210, addresses), SecureServiceRecord := Records(11207, addresses)])
  }

  // ----- what clients can observe -----

  datatype Routing = Routing(
    running: set<Ipv4>,
    members: set<Ipv4>,
    pending: set<Ipv4>,
    certified: set<Ipv4>,
    active: map<string, seq<Ipv4>>,
    passive: map<string, seq<Ipv4>>,
    dns: map<RecordKind, seq<RecordData>>)

  /** Which promises apply: on passive targets, on node lists in DNS, on active targets, on containers of members, and
      on certificates of nodes that wait to join. */
  datatype Terms = Terms(passive: bool, listing: bool, covering: bool, running: bool, certs: bool)

  const PASSIVE_ONLY := Terms(true, false, false, false, false)
  const LISTING_ONLY := Terms(false, true, false, false, false)
  const COVERING_ONLY := Terms(false, false, true, false, false)
  const RUNNING_ONLY := Terms(false, false, false, true, false)
  const CERTS_ONLY := Terms(false, false, false, false, true)

  /** A balancer that does not check health must never list a node outside the cluster. */
  ghost predicate PassiveWithin(r: Routing) {
    forall lb, a | lb in r.passive && a in r.passive[lb] :: a in r.members
  }

  ghost predicate DnsWithin(r: Routing) {
    forall k, d | k in r.dns && d in r.dns[k] :: d.address in r.members
  }

  /** A health-checked balancer must list every member; extra targets merely fail their checks. */
  ghost predicate ActiveCovers(r: Routing) {
    forall lb, a | lb in r.active && a in r.members :: a in r.active[lb]
  }

  /** Every member runs, and every node that waits to join has its certificate if the cluster uses them. */
  ghost predicate Safe(r: Routing, t: Terms) {
    && (t.passive ==> PassiveWithin(r))
    && (t.listing ==> DnsWithin(r))
    && (t.covering ==> ActiveCovers(r))
    && (t.running ==> r.members <= r.running)
    && (t.certs ==> r.pending <= r.certified)
  }

  /** Every observation of a run was safe. */
  ghost predicate AllSafe(run: seq<Routing>, t: Terms) {
    run == [] || (AllSafe(run[..|run| - 1], t) && Safe(run[|run| - 1], t))
  }

  lemma {:induction false} AllSafeEverywhere(run: seq<Routing>, t: Terms)
    ensures AllSafe(run, t) <==> forall r | r in run :: Safe(r, t)
  {
    if run != [] {
      var k := |run| - 1;
      assert run == run[..k] + [run[k]];
      AllSafeEverywhere(run[..k], t);
    }
  }

  // ----- the pure parts of the protocol -----

  /** `balancers` after each one run by a node of `kind` was pointed at `targets`. */
  function Retargeted(balancers: map<string, seq<Ipv4>>, nodes: seq<NodeInfo>, kind: NodeKind, targets: seq<Ipv4>)
    : map<string, seq<Ipv4>>
  {
    if nodes == [] then balancers
    else
      var n := nodes[|nodes| - 1];
      var rest := Retargeted(balancers, nodes[..|nodes| - 1], kind, targets);
      if n.kind == kind then rest[n.containerId := targets] else rest
  }

  function AddressesOf(nodes: seq<NodeInfo>): seq<Ipv4> {
    if nodes == [] then [] else AddressesOf(nodes[..|nodes| - 1]) + [nodes[|nodes| - 1].address]
  }

  function OtpsOf(nodes: seq<NodeInfo>): seq<string> {
    if nodes == [] then [] else OtpsOf(nodes[..|nodes| - 1]) + [nodes[|nodes| - 1].otp]
  }

  function WithoutAddresses(nodes: seq<NodeInfo>, addresses: seq<Ipv4>): seq<NodeInfo> {
    if nodes == [] then []
    else
      var n := nodes[|nodes| - 1];
      WithoutAddresses(nodes[..|nodes| - 1], addresses) + if n.address in addresses then [] else [n]
  }

  function WithoutContainer(nodes: seq<NodeInfo>, containerId: string): seq<NodeInfo> {
    if nodes == [] then []
    else
      var n := nodes[|nodes| - 1];
      WithoutContainer(nodes[..|nodes| - 1], containerId) + if n.containerId == containerId then [] else [n]
  }

  /** The nodes of the cluster that stay. */
  function Keep(nodes: seq<NodeInfo>, leaving: seq<NodeInfo>): seq<NodeInfo> {
    if nodes == [] then []
    else
      var n := nodes[|nodes| - 1];
      Keep(nodes[..|nodes| - 1], leaving) + if n in leaving then [] else [n]
  }

  function Deployed(lease: Lease, group: NodeGroup, columnar: bool): NodeInfo {
    NodeInfo(lease.nodeId, if columnar then ColumnarNode else ServerNode,
             lease.containerId, lease.address, group.version, "", [])
  }

  function DeployedNodes(leases: seq<Lease>, groups: seq<NodeGroup>, columnar: bool): (r: seq<NodeInfo>)
    requires |leases| == |groups|
    ensures |r| == |leases| && forall i | 0 <= i < |r| :: r[i] == Deployed(leases[i], groups[i], columnar)
  {
    seq(|leases|, i requires 0 <= i < |leases| => Deployed(leases[i], groups[i], columnar))
  }

  ghost function BalancersOf(nodes: seq<NodeInfo>, kind: NodeKind): set<string> {
    set n | n in nodes && n.kind == kind :: n.containerId
  }

  /** A node that can drive the rebalance: it reported an OTP name and is staying. */
  predicate CanControl(n: NodeInfo, otps: seq<string>) {
    n.IsClusterNode() && n.otp != "" && n.otp !in otps
  }

  /** The members ns_server ejects for a list of OTP names; an empty name matches no member. */
  ghost function Ejected(nodes: seq<NodeInfo>, otps: seq<string>): set<Ipv4> {
    set n | n in nodes && n.IsClusterNode() && n.otp != "" && n.otp in otps :: n.address
  }

  ghost predicate AllKnown(nodes: seq<NodeInfo>) {
    forall n | n in nodes && n.IsClusterNode() :: n.otp != ""
  }

  /** The records that a cluster of this type may have. */
  function RecordKinds(columnar: bool): set<RecordKind> {
    if columnar then {HostRecord} else {HostRecord, ServiceRecord, SecureServiceRecord}
  }

  /** The same containers, asked again what they report. */
  ghost predicate Relisted(before: seq<NodeInfo>, after: seq<NodeInfo>) {
    |before| == |after|
        && forall i | 0 <= i < |after| :: after[i] == before[i].(otp := after[i].otp, services := after[i].services)
  }

  /** The environment of one cluster: containers, ns_server membership, balancers and DNS.
      Any operation may fail, which sets `failed`; a failed operation may or may not have taken effect. */
  class World {
    var containers: seq<NodeInfo>
    var certified: set<Ipv4>
    var registrations: map<Ipv4, Registration>
    var active: map<string, seq<Ipv4>>
    var passive: map<string, seq<Ipv4>>
    var dns: map<RecordKind, seq<RecordData>>
    ghost var pending: set<Ipv4>
    ghost var members: set<Ipv4>
    ghost var failed: bool
    ghost var history: seq<Routing>

    ghost function Now(): Routing
      reads this
    {
      Routing(MemberAddresses(containers), members, pending, certified, active, passive, dns)
    }

    /** Every observation of the run so far was safe, the present one included. */
    ghost predicate Steady(t: Terms)
      reads this
    {
      AllSafe(history, t) && history != [] && history[|history| - 1] == Now()
    }

    /** What every run keeps, however it ends: containers are distinct, every balancer container has a configuration,
        and DNS holds no records that an update would not write. */
    ghost predicate Coherent(dnsEnabled: bool)
      reads this
    {
      && DistinctContainers(containers) && DistinctAddresses(containers)
      && active.Keys == BalancersOf(containers, Haproxy)
      && passive.Keys == BalancersOf(containers, Nginx)
      && dns.Keys <= if dnsEnabled then RecordKinds(IsColumnar(containers)) else {}
    }

    /** A run may start: the cluster was listed, and its log begins. Nothing is assumed about members, nodes that wait
        to join, or where balancers and DNS point. */
    ghost predicate Startable(cluster: Cluster)
      reads this
    {
      && cluster.nodes == containers && containers != [] && DistinctOtps(containers)
      && Coherent(cluster.dnsEnabled)
      && history == [Now()] && !failed
    }

    method Attempt() returns (ok: bool)
      modifies `failed
      ensures failed == (old(failed) || !ok)
    {
      ok := *;
      failed := failed || !ok;
    }

    method DeployNode(node: NodeInfo) returns (ok: bool)
      modifies `failed, `containers, `history
      ensures failed == (old(failed) || !ok)
      ensures history == old(history) + [Now()]
      ensures containers == old(containers) || containers == old(containers) + [node]
      ensures ok ==> containers == old(containers) + [node]
    {
      ok := Attempt();
      var happened := *;
      if ok || happened { containers := containers + [node]; }
      history := history + [Now()];
    }

    method SetupCertificates(address: Ipv4) returns (ok: bool)
      modifies `failed, `certified, `history
      ensures failed == (old(failed) || !ok)
      ensures old(certified) <= certified <= old(certified) + {address}
      ensures ok ==> certified == old(certified) + {address}
      ensures history == old(history) + [Now()]
    {
      ok := Attempt();
      var happened := *;
      if ok || happened { certified := certified + {address}; }
      history := history + [Now()];
    }

    method RegisterNode(address: Ipv4, registration: Registration) returns (ok: bool)
      modifies `failed, `registrations, `pending, `history
      ensures failed == (old(failed) || !ok)
      ensures old(pending) <= pending <= old(pending) + {address}
      ensures ok ==> pending == old(pending) + {address}
      ensures registrations == old(registrations) || registrations == old(registrations)[address := registration]
      ensures ok ==> registrations == old(registrations)[address := registration]
      ensures history == old(history) + [Now()]
    {
      ok := Attempt();
      var happened := *;
      if ok || happened {
        registrations := registrations[address := registration];
        pending := pending + {address};
      }
      history := history + [Now()];
    }

    /** Writing to a balancer whose container is gone always fails; `failed` counts only other failures. */
    method UpdateActive(balancer: string, targets: seq<Ipv4>) returns (ok: bool)
      modifies `failed, `active, `history
      ensures ok ==> failed == old(failed) && balancer in old(active)
      ensures !ok ==> failed || balancer !in old(active)
      ensures old(failed) ==> failed
      ensures active == old(active) || (balancer in old(active) && active == old(active)[balancer := targets])
      ensures ok ==> active == old(active)[balancer := targets]
      ensures history == old(history) + [Now()]
    {
      ok := balancer in active;
      if ok {
        ok := Attempt();
        var happened := *;
        if ok || happened { active := active[balancer := targets]; }
      }
      history := history + [Now()];
    }

    method UpdatePassive(balancer: string, targets: seq<Ipv4>) returns (ok: bool)
      modifies `failed, `passive, `history
      ensures ok ==> failed == old(failed) && balancer in old(passive)
      ensures !ok ==> failed || balancer !in old(passive)
      ensures old(failed) ==> failed
      ensures passive == old(passive) || (balancer in old(passive) && passive == old(passive)[balancer := targets])
      ensures ok ==> passive == old(passive)[balancer := targets]
      ensures history == old(history) + [Now()]
    {
      ok := balancer in passive;
      if ok {
        ok := Attempt();
        var happened := *;
        if ok || happened { passive := passive[balancer := targets]; }
      }
      history := history + [Now()];
    }

    /** A failed update may have written any of the records. */
    method WriteRecords(records: map<RecordKind, seq<RecordData>>) returns (ok: bool)
      modifies `failed, `dns, `history
      ensures failed == (old(failed) || !ok)
      ensures forall k | k in dns :: (k in old(dns) && dns[k] == old(dns)[k]) || (k in records && dns[k] == records[k])
      ensures ok ==> dns == old(dns) + records
      ensures records == map[] ==> dns == old(dns)
      ensures history == old(history) + [Now()]
    {
      ok := Attempt();
      var written: set<RecordKind> := *;
      dns := dns + if ok then records else map k | k in records && k in written :: records[k];
      history := history + [Now()];
    }

    /** Removing a container also takes down the balancer it runs. */
    method RemoveContainer(containerId: string) returns (ok: bool)
      modifies `failed, `containers, `active, `passive, `history
      ensures failed == (old(failed) || !ok)
      ensures || (containers == old(containers) && active == old(active) && passive == old(passive))
              || (containers == WithoutContainer(old(containers), containerId)
                  && active == old(active) - {containerId} && passive == old(passive) - {containerId})
      ensures ok ==> containers == WithoutContainer(old(containers), containerId)
                     && active == old(active) - {containerId} && passive == old(passive) - {containerId}
      ensures history == old(history) + [Now()]
    {
      ok := Attempt();
      var happened := *;
      if ok || happened {
        containers := WithoutContainer(containers, containerId);
        active, passive := active - {containerId}, passive - {containerId};
      }
      history := history + [Now()];
    }

    /** While a rebalance runs, and after it failed, membership is anything between the two ends. A node that waits to
        join and is ejected never joins. */
    method Rebalance(ghost leaving: set<Ipv4>) returns (ok: bool, ghost transit: seq<Routing>)
      modifies `failed, `members, `pending, `history
      ensures failed == (old(failed) || !ok)
      ensures old(members) - leaving <= members <= old(members) + (old(pending) - leaving) && pending <= old(pending)
      ensures ok ==> members == (old(members) + old(pending)) - leaving && pending == {}
      ensures history == old(history) + transit + [Now()]
      ensures forall r | r in transit ::
                && old(members) - leaving <= r.members <= old(members) + (old(pending) - leaving)
                && r == old(Now()).(members := r.members)
    {
      ok := Attempt();
      ghost var lo, hi := members - leaving, members + (pending - leaving);
      ghost var before := Now();
      transit :| forall r | r in transit :: r == before.(members := r.members) && lo <= r.members <= hi;
      ghost var end: set<Ipv4> :| lo <= end <= hi;
      members, pending := if ok then (members + pending) - leaving else end, if ok then {} else pending - end;
      history := history + transit + [Now()];
    }

    /** Lists the containers again, and begins the log of the next run. */
    method Relist()
      modifies `containers, `history, `failed
      ensures Relisted(old(containers), containers)
      ensures history == [Now()] && !failed
    {
      var reports: seq<(string, seq<Service>)> := *;
      if |reports| == |containers| {
        containers := seq(|containers|, i requires 0 <= i < |containers| && |reports| == |containers| reads this =>
          containers[i].(otp := reports[i].0, services := reports[i].1));
      }
      history, failed := [Now()], false;
    }
  }
}
