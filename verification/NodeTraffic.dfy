/** Blocking, allowing and partitioning the traffic of cluster nodes. */
module NodeTraffic {
  import opened Options
  import opened Topology
  import opened Firewall
  import opened TrafficControl

  datatype TrafficKind = NodeTraffic | ClientTraffic | AllTraffic | OtherTraffic

  function ModeOf(kind: TrafficKind): Mode {
    match kind
    case NodeTraffic => BlockNodes
    case ClientTraffic => BlockClients
    case AllTraffic => BlockAll
    case OtherTraffic => UnknownMode
  }

  datatype Operation =
    | Block(ids: seq<string>, kind: TrafficKind, style: string)
    | Allow(ids: seq<string>)
    | Partition(ids: seq<string>, style: string)

  // ----- which containers an operation touches, and the policy it gives them -----

  /** The last listed node with this identifier. */
  function FindNode(nodes: seq<NodeInfo>, id: string): Option<NodeInfo> {
    if nodes == [] then None
    else
      var n := nodes[|nodes| - 1];
      if n.nodeId == id then Some(n) else FindNode(nodes[..|nodes| - 1], id)
  }

  ghost function Selected(nodes: seq<NodeInfo>, ids: seq<string>): set<string> {
    if ids == [] then set n | n in nodes :: n.containerId
    else set id | id in ids && FindNode(nodes, id).Some? :: FindNode(nodes, id).value.containerId
  }

  function Island(nodes: seq<NodeInfo>, ids: seq<string>): seq<NodeInfo> {
    if nodes == [] then []
    else
      var n := nodes[|nodes| - 1];
      Island(nodes[..|nodes| - 1], ids) + if n.nodeId in ids then [n] else []
  }

  function Utilities(nodes: seq<NodeInfo>): seq<NodeInfo> {
    if nodes == [] then []
    else
      var n := nodes[|nodes| - 1];
      Utilities(nodes[..|nodes| - 1]) + if n.IsClusterNode() then [] else [n]
  }

  function Singles(nodes: seq<NodeInfo>): (r: seq<Cidr>)
    ensures |r| == |nodes| && forall i | 0 <= i < |r| :: r[i] == Single(nodes[i].address)
  {
    if nodes == [] then [] else Singles(nodes[..|nodes| - 1]) + [Single(nodes[|nodes| - 1].address)]
  }

  /** The island's own nodes and every utility node may reach the island. */
  function IslandAllowed(nodes: seq<NodeInfo>, ids: seq<string>): seq<Cidr> {
    Singles(Island(nodes, ids)) + Singles(Utilities(nodes))
  }

  ghost function Touched(nodes: seq<NodeInfo>, op: Operation): set<string> {
    match op
    case Block(ids, _, _) => Selected(nodes, ids)
    case Allow(ids) => Selected(nodes, ids)
    case Partition(ids, _) => set n | n in Island(nodes, ids) :: n.containerId
  }

  function PolicyOf(nodes: seq<NodeInfo>, op: Operation): Policy {
    match op
    case Block(_, kind, _) => Policy(ModeOf(kind), [], [])
    case Allow(_) => Policy(AllowAll, [], [])
    case Partition(ids, _) => Policy(BlockNodes, [], IslandAllowed(nodes, ids))
  }

  /** How the operation has blocked packets answered. */
  function StyleOf(op: Operation): string {
    if op.Allow? then "" else op.style
  }

  /** How a blocked packet is answered in this style. */
  ghost function StyledAnswer(style: string, tcp: bool): Target {
    if style == "" then Drop
    else if style == "tcp-reset" then Reject(if tcp then "tcp-reset" else "")
    else Reject(style)
  }

  /** The container accepts exactly the packets that the policy permits, and answers the others in this style. */
  ghost predicate Implements(t: Tables, policy: Policy, net: Network, style: string) {
    && (forall p: Packet :: Accepted(t.input, p) <==> Permits(policy, net, p.source))
    && (forall p: Packet :: Accepted(t.input, p) || Answer(t.input, p) == Some(StyledAnswer(style, p.tcp)))
  }

  /** The operation took effect on the containers it touches and on no other. */
  ghost predicate Applied(nodes: seq<NodeInfo>, net: Network, op: Operation, before: map<string, Tables>,
                          after: map<string, Tables>) {
    && after.Keys == before.Keys
    && forall id | id in before ::
         if id in Touched(nodes, op) then Implements(after[id], PolicyOf(nodes, op), net, StyleOf(op))
         else after[id] == before[id]
  }

  /** What an operation did to a container, as far as its log tells. */
  datatype Outcome = Spared | Complete(policy: Policy, style: string) | Cut(policy: Policy, style: string)

  ghost function OutcomeOf(nodes: seq<NodeInfo>, op: Operation, log: seq<Entry>, id: string): Outcome {
    if id !in Touched(nodes, op) || !Flushed(log, id) then Spared
    else if HaltedIn(PolicyOf(nodes, op), log, id) then Cut(PolicyOf(nodes, op), StyleOf(op))
    else Complete(PolicyOf(nodes, op), StyleOf(op))
  }

  ghost predicate Leaves(outcome: Outcome, now: Tables, before: Tables, net: Network) {
    match outcome
    case Spared => SameRules(now, before)
    case Complete(policy, style) => Implements(now, policy, net, style)
    case Cut(policy, style) => now.input <= CompileInput(policy, net, style)
  }

  /** What the operation left behind, whether it succeeded or not: the policy where the rules were flushed, or if it
      stopped there, a beginning of it; elsewhere the rules that were there, and the same container if it was not to be
      touched. `log` is what the operation ran. */
  ghost predicate AppliedBy(nodes: seq<NodeInfo>, net: Network, op: Operation, before: map<string, Tables>,
                            after: map<string, Tables>, log: seq<Entry>) {
    && after.Keys == before.Keys
    && (forall id | id in before :: Leaves(OutcomeOf(nodes, op, log, id), after[id], before[id], net))
    && (forall id | id in before && id !in Touched(nodes, op) :: after[id] == before[id])
  }

  ghost predicate AllTried(nodes: seq<NodeInfo>, op: Operation, log: seq<Entry>) {
    forall id | id in Touched(nodes, op) :: FlushTried(log, id)
  }

  lemma InstalledImplements(t: Tables, policy: Policy, net: Network, style: string)
    requires t.input == CompileInput(policy, net, style)
    ensures Implements(t, policy, net, style)
  {
    forall p: Packet
      ensures Accepted(t.input, p) <==> Permits(policy, net, p.source)
      ensures Accepted(t.input, p) || Answer(t.input, p) == Some(StyledAnswer(style, p.tcp))
    {
      CompileInputMeansPolicy(policy, net, style, p);
      if !Permits(policy, net, p.source) { BlockedAreAnswered(policy, net, style, p); }
    }
  }

  /** Where an operation stopped, nothing is rejected that its policy permits: a failed Block or Partition never blocks
      more than it should, but it may block less. */
  lemma CutPermits(nodes: seq<NodeInfo>, net: Network, op: Operation, before: map<string, Tables>,
                   after: map<string, Tables>, log: seq<Entry>, id: string, p: Packet)
    requires AppliedBy(nodes, net, op, before, after, log) && id in before && OutcomeOf(nodes, op, log, id).Cut?
    ensures Permits(PolicyOf(nodes, op), net, p.source) ==> Accepted(after[id].input, p)
  {
    assert Leaves(OutcomeOf(nodes, op, log, id), after[id], before[id], net);
    BeginningPermits(PolicyOf(nodes, op), net, StyleOf(op), after[id].input, p);
  }

  // ----- sequences of operations -----

  /** Each operation led from one state of the containers to the next, running the commands of its log. */
  ghost predicate Run(nodes: seq<NodeInfo>, net: Network, ops: seq<Operation>, logs: seq<seq<Entry>>,
                      states: seq<map<string, Tables>>) {
    && |states| == |ops| + 1 && |logs| == |ops|
    && forall i | 0 <= i < |ops| :: AppliedBy(nodes, net, ops[i], states[i], states[i + 1], logs[i])
  }

  /** The outcome of the last operation that did not spare the container. */
  ghost function LastOutcome(nodes: seq<NodeInfo>, ops: seq<Operation>, logs: seq<seq<Entry>>, id: string): Outcome
    requires |logs| == |ops|
  {
    if ops == [] then Spared
    else
      var k := |ops| - 1;
      var last := OutcomeOf(nodes, ops[k], logs[k], id);
      if last.Spared? then LastOutcome(nodes, ops[..k], logs[..k], id) else last
  }

  lemma LeavesSame(outcome: Outcome, now: Tables, middle: Tables, before: Tables, net: Network)
    requires Leaves(outcome, middle, before, net) && SameRules(now, middle)
    ensures Leaves(outcome, now, before, net)
  {
  }

  /** After any run of operations, failed ones included, each container follows the policy of the last operation that
      flushed its rules, or a beginning of it if the operation stopped there; a container that none flushed has the
      rules it had. */
  lemma {:induction false} LastOperationDecides(nodes: seq<NodeInfo>, net: Network, ops: seq<Operation>,
                                                logs: seq<seq<Entry>>, states: seq<map<string, Tables>>, id: string)
    requires Run(nodes, net, ops, logs, states) && id in states[0]
    ensures id in states[|ops|]
    ensures Leaves(LastOutcome(nodes, ops, logs, id), states[|ops|][id], states[0][id], net)
  {
    if ops != [] {
      var k := |ops| - 1;
      LastOperationDecides(nodes, net, ops[..k], logs[..k], states[..k + 1], id);
      assert AppliedBy(nodes, net, ops[k], states[k], states[k + 1], logs[k]);
      assert Leaves(OutcomeOf(nodes, ops[k], logs[k], id), states[k + 1][id], states[k][id], net);
      if OutcomeOf(nodes, ops[k], logs[k], id).Spared? {
        LeavesSame(LastOutcome(nodes, ops[..k], logs[..k], id), states[k + 1][id], states[k][id], states[0][id], net);
      }
    }
  }

  ghost predicate AcceptsAll(t: Tables) {
    forall p: Packet :: Accepted(t.input, p)
  }

  /** After Allow, successful or not, a container accepts everything if and only if its flush worked or it accepted
      everything before. Without iptables it did: the failure that the code ignores is harmless for the reason the code
      gives. */
  lemma AllowRestores(nodes: seq<NodeInfo>, net: Network, ids: seq<string>, before: map<string, Tables>,
                      after: map<string, Tables>, log: seq<Entry>, id: string)
    requires AppliedBy(nodes, net, Allow(ids), before, after, log) && id in before && id in Touched(nodes, Allow(ids))
    ensures AcceptsAll(after[id]) <==> Flushed(log, id) || AcceptsAll(before[id])
    ensures before[id].Valid() && !before[id].installed ==> AcceptsAll(after[id])
  {
  }

  /** But a failure for any other reason leaves the rules in place: everything is rejected, and Allow still succeeds. */
  lemma FailedFlushKeepsBlocking(n: NodeInfo, net: Network, style: string, t: Tables, p: Packet)
    requires t.installed && t.input == CompileInput(Policy(BlockAll, [], []), net, style)
    ensures var state, log := map[n.containerId := t], [Entry(n.containerId, Flush, false)];
            AppliedBy([n], net, Allow([]), state, state, log) && AllTried([n], Allow([]), log)
                && !Flushed(log, n.containerId)
    ensures t.Valid() && !Accepted(t.input, p)
  {
    CompileInputMeansPolicy(Policy(BlockAll, [], []), net, style, p);
    var log := [Entry(n.containerId, Flush, false)];
    assert log[0] in log && forall e | e in log :: e == log[0];
    assert n in [n] && forall m | m in [n] :: m == n;
  }

  /** Blocking everything can leave a container open to everything, even one that was blocked before: the rules are
      flushed first, and here the very next command fails. */
  lemma StoppedBlockOpens(n: NodeInfo, net: Network, style: string, t: Tables, p: Packet)
    requires t.installed && t.input == CompileInput(Policy(BlockAll, [], []), net, style)
    ensures var id := n.containerId;
            var log := [Entry(id, Flush, true), Entry(id, Append(OutputChain, AllowRule(None)), false)];
            AppliedBy([n], net, Block([], AllTraffic, style), map[id := t], map[id := Tables(true, [], [])], log)
    ensures !Accepted(t.input, p) && AcceptsAll(Tables(true, [], []))
  {
    CompileInputMeansPolicy(Policy(BlockAll, [], []), net, style, p);
    var id, op := n.containerId, Block([], AllTraffic, style);
    var log := [Entry(id, Flush, true), Entry(id, Append(OutputChain, AllowRule(None)), false)];
    assert log[0] in log && n in [n];
    assert OutcomeOf([n], op, log, id) == Cut(PolicyOf([n], op), style);
  }

  /** Allowing all nodes restores full acceptance wherever the flush worked, whatever came before, failed or not; and
      elsewhere exactly if the policy of the last operation that had reached the container permits everything, or none
      had and its first rules did. Only where that operation had stopped does it depend on how far it had come. */
  lemma AllowAllRestores(nodes: seq<NodeInfo>, net: Network, ops: seq<Operation>, logs: seq<seq<Entry>>,
                         states: seq<map<string, Tables>>, n: NodeInfo)
    requires Run(nodes, net, ops + [Allow([])], logs, states) && n in nodes && n.containerId in states[0]
    ensures n.containerId in states[|ops|] && n.containerId in states[|ops| + 1]
    ensures AcceptsAll(states[|ops| + 1][n.containerId]) <==>
              || Flushed(logs[|ops|], n.containerId)
              || match LastOutcome(nodes, ops, logs[..|ops|], n.containerId)
                 case Spared => AcceptsAll(states[0][n.containerId])
                 case Complete(policy, _) => forall p: Packet :: Permits(policy, net, p.source)
                 case Cut(_, _) => AcceptsAll(states[|ops|][n.containerId])
  {
    var all, k, id := ops + [Allow([])], |ops|, n.containerId;
    assert all[..k] == ops;
    assert Run(nodes, net, ops, logs[..k], states[..k + 1]) by {
      forall i | 0 <= i < k ensures AppliedBy(nodes, net, ops[i], states[i], states[i + 1], logs[i]) {
        assert all[i] == ops[i];
      }
    }
    LastOperationDecides(nodes, net, ops, logs[..k], states[..k + 1], id);
    assert AppliedBy(nodes, net, all[k], states[k], states[k + 1], logs[k]);
    AllowRestores(nodes, net, [], states[k], states[k + 1], logs[k], id);
  }

  // ----- a partition separates -----

  lemma {:induction false} IslandMember(nodes: seq<NodeInfo>, ids: seq<string>)
    ensures forall n :: n in Island(nodes, ids) <==> n in nodes && n.nodeId in ids
  {
    if nodes != [] {
      var k := |nodes| - 1;
      IslandMember(nodes[..k], ids);
      assert nodes == nodes[..k] + [nodes[k]];
    }
  }

  lemma {:induction false} UtilitiesMember(nodes: seq<NodeInfo>)
    ensures forall n :: n in Utilities(nodes) <==> n in nodes && !n.IsClusterNode()
  {
    if nodes != [] {
      var k := |nodes| - 1;
      UtilitiesMember(nodes[..k]);
      assert nodes == nodes[..k] + [nodes[k]];
    }
  }

  lemma {:induction false} SinglesContain(nodes: seq<NodeInfo>, a: Ipv4)
    ensures AnyContains(Singles(nodes), a) <==> exists n :: n in nodes && n.address == a
  {
    if nodes != [] {
      var k := |nodes| - 1;
      SinglesContain(nodes[..k], a);
      SingleContainsItself(nodes[k].address, a);
      assert nodes == nodes[..k] + [nodes[k]];
      AnyContainsConcat(Singles(nodes[..k]), [Single(nodes[k].address)], a);
    }
  }

  lemma AnyContainsConcat(x: seq<Cidr>, y: seq<Cidr>, a: Ipv4)
    ensures AnyContains(x + y, a) <==> AnyContains(x, a) || AnyContains(y, a)
    ensures forall c :: AnyContains([c], a) <==> c.Contains(a)
  {
  }

  /** The nodes have addresses of their own inside the node range. */
  ghost predicate Addressed(nodes: seq<NodeInfo>, net: Network) {
    DistinctAddresses(nodes) && forall n | n in nodes :: net.range.Contains(n.address) && n.address != net.gateway
  }

  lemma IslandAllows(nodes: seq<NodeInfo>, ids: seq<string>, m: NodeInfo)
    requires DistinctAddresses(nodes) && m in nodes
    ensures AnyContains(IslandAllowed(nodes, ids), m.address) <==> m.nodeId in ids || !m.IsClusterNode()
  {
    var island, utilities := Island(nodes, ids), Utilities(nodes);
    IslandMember(nodes, ids);
    UtilitiesMember(nodes);
    SinglesContain(island, m.address);
    SinglesContain(utilities, m.address);
    forall c ensures c in IslandAllowed(nodes, ids) <==> c in Singles(island) || c in Singles(utilities) {}
    forall n | n in nodes && n.address == m.address ensures n == m {
      var i :| 0 <= i < |nodes| && nodes[i] == n;
      var j :| 0 <= j < |nodes| && nodes[j] == m;
    }
  }

  /** On the island, a packet from another node gets in if and only if that node is on the island too or is a utility
      node; the gateway and everything outside the node range still get in. */
  lemma PartitionSeparates(nodes: seq<NodeInfo>, net: Network, ids: seq<string>, style: string,
                           before: map<string, Tables>, after: map<string, Tables>, n: NodeInfo, m: NodeInfo, p: Packet)
    requires Applied(nodes, net, Partition(ids, style), before, after) && Addressed(nodes, net)
    requires n in nodes && m in nodes && n.nodeId in ids && n.containerId in before
    ensures p.source == m.address ==>
              (Accepted(after[n.containerId].input, p) <==> m.nodeId in ids || !m.IsClusterNode())
    ensures p.source == net.gateway || !net.range.Contains(p.source) ==> Accepted(after[n.containerId].input, p)
  {
    IslandMember(nodes, ids);
    assert n in Island(nodes, ids);
    assert Implements(after[n.containerId], PolicyOf(nodes, Partition(ids, style)), net, style);
    IslandAllows(nodes, ids, m);
  }

  /** Off the island nothing changes. */
  lemma PartitionSparesOthers(nodes: seq<NodeInfo>, net: Network, ids: seq<string>, style: string,
                              before: map<string, Tables>, after: map<string, Tables>, m: NodeInfo)
    requires Applied(nodes, net, Partition(ids, style), before, after) && DistinctContainers(nodes)
    requires m in nodes && m.nodeId !in ids && m.containerId in before
    ensures m.containerId in after && after[m.containerId] == before[m.containerId]
  {
    IslandMember(nodes, ids);
    forall n | n in nodes && n.containerId == m.containerId ensures n == m {
      var i :| 0 <= i < |nodes| && nodes[i] == n;
      var j :| 0 <= j < |nodes| && nodes[j] == m;
    }
  }

  // ----- the length check -----

  ghost function SetOf(ids: seq<string>): set<string> {
    set id | id in ids
  }

  ghost predicate DuplicateFree(ids: seq<string>) {
    forall i, j | 0 <= i < j < |ids| :: ids[i] != ids[j]
  }

  lemma {:induction false} SetOfCardinality(ids: seq<string>)
    ensures |SetOf(ids)| <= |ids|
    ensures |SetOf(ids)| == |ids| <==> DuplicateFree(ids)
  {
    if ids != [] {
      var k := |ids| - 1;
      SetOfCardinality(ids[..k]);
      assert ids == ids[..k] + [ids[k]];
      assert SetOf(ids) == SetOf(ids[..k]) + {ids[k]};
      if ids[k] in ids[..k] {
        assert SetOf(ids) == SetOf(ids[..k]);
      }
    }
  }

  ghost function IdsOf(nodes: seq<NodeInfo>): set<string> {
    set n | n in nodes :: n.nodeId
  }

  lemma LastIdIsNew(nodes: seq<NodeInfo>)
    requires DistinctIds(nodes) && nodes != []
    ensures nodes[|nodes| - 1].nodeId !in IdsOf(nodes[..|nodes| - 1])
    ensures IdsOf(nodes) == IdsOf(nodes[..|nodes| - 1]) + {nodes[|nodes| - 1].nodeId}
  {
  }

  lemma {:induction false} IslandCardinality(nodes: seq<NodeInfo>, ids: seq<string>)
    requires DistinctIds(nodes)
    ensures |Island(nodes, ids)| == |SetOf(ids) * IdsOf(nodes)|
  {
    if nodes == [] {
      assert SetOf(ids) * IdsOf(nodes) == {};
    } else {
      var k := |nodes| - 1;
      IslandCardinality(nodes[..k], ids);
      LastIdIsNew(nodes);
      var front, id := SetOf(ids) * IdsOf(nodes[..k]), nodes[k].nodeId;
      assert SetOf(ids) * IdsOf(nodes) == if id in ids then front + {id} else front;
    }
  }

  /** No node is requested twice, and all are nodes of the cluster. */
  ghost predicate Requestable(nodes: seq<NodeInfo>, ids: seq<string>) {
    DuplicateFree(ids) && forall id | id in ids :: id in IdsOf(nodes)
  }

  lemma NothingToTouch(nodes: seq<NodeInfo>, ids: seq<string>, style: string)
    requires |Island(nodes, ids)| == |ids|
    ensures Touched(nodes, Partition(ids, style)) == {} <==> ids == []
  {
    if ids != [] { assert Island(nodes, ids)[0].containerId in Touched(nodes, Partition(ids, style)); }
  }

  /** The length comparison accepts exactly the duplicate-free requests for nodes of the cluster. */
  lemma LengthCheckIsExact(nodes: seq<NodeInfo>, ids: seq<string>)
    requires DistinctIds(nodes)
    ensures |Island(nodes, ids)| == |ids| <==> Requestable(nodes, ids)
  {
    IslandCardinality(nodes, ids);
    SetOfCardinality(ids);
    var wanted, found := SetOf(ids), SetOf(ids) * IdsOf(nodes);
    assert |wanted| == |found| + |wanted - found| by { assert wanted == found + (wanted - found); }
    assert |found| == |wanted| <==> wanted - found == {};
    assert wanted - found == {} <==> forall id | id in ids :: id in IdsOf(nodes) by {
      if wanted - found == {} {
        forall id | id in ids ensures id in IdsOf(nodes) { assert id in wanted && id !in wanted - found; }
      }
    }
  }

  // ----- the operations -----

  /** What every operation may rely on. */
  ghost predicate Hosts(h: Host, nodes: seq<NodeInfo>)
    reads h
  {
    h.Valid() && forall n | n in nodes :: n.containerId in h.tables
  }

  /** Of several nodes with the same identifier the last one is found. */
  lemma {:induction false} FoundIsLast(nodes: seq<NodeInfo>, id: string, i: nat)
    requires i < |nodes| && nodes[i].nodeId == id && forall j | i < j < |nodes| :: nodes[j].nodeId != id
    ensures FindNode(nodes, id) == Some(nodes[i])
  {
    var k := |nodes| - 1;
    if i < k { FoundIsLast(nodes[..k], id, i); }
  }

  lemma {:induction false} FoundIsListed(nodes: seq<NodeInfo>, id: string)
    ensures FindNode(nodes, id).Some? <==> id in IdsOf(nodes)
    ensures FindNode(nodes, id).Some? ==> FindNode(nodes, id).value in nodes && FindNode(nodes, id).value.nodeId == id
  {
    if nodes != [] {
      var k := |nodes| - 1;
      FoundIsListed(nodes[..k], id);
      assert nodes == nodes[..k] + [nodes[k]];
    }
  }

  lemma WholeClusterSelected(nodes: seq<NodeInfo>, containers: seq<string>)
    requires |containers| == |nodes| && forall j | 0 <= j < |nodes| :: containers[j] == nodes[j].containerId
    ensures forall c :: c in containers <==> c in Selected(nodes, [])
  {
  }

  lemma RequestedSelected(nodes: seq<NodeInfo>, ids: seq<string>, containers: seq<string>)
    requires ids != [] && |containers| == |ids|
    requires forall j | 0 <= j < |ids| ::
             FindNode(nodes, ids[j]).Some? && containers[j] == FindNode(nodes, ids[j]).value.containerId
    ensures forall c :: c in containers <==> c in Selected(nodes, ids)
  {
  }

  /** Resolves each identifier by listing the nodes again; no identifier means the whole cluster. */
  method SelectContainers(h: Host, nodes: seq<NodeInfo>, ids: seq<string>) returns (ok: bool, containers: seq<string>)
    requires Hosts(h, nodes) && !h.failed
    modifies h`failed
    ensures ok <==> !h.failed && forall id | id in ids :: id in IdsOf(nodes)
    ensures ok ==> forall c :: c in containers <==> c in Selected(nodes, ids)
    ensures forall c | c in containers :: c in h.tables
  {
    containers := [];
    for i := 0 to |ids|
      invariant !h.failed
      invariant forall id | id in ids[..i] :: id in IdsOf(nodes)
      invariant |containers| == i
      invariant forall j | 0 <= j < i ::
                FindNode(nodes, ids[j]).Some? && containers[j] == FindNode(nodes, ids[j]).value.containerId
      invariant forall c | c in containers :: c in h.tables
    {
      ok := *;  // list the nodes
      h.failed := !ok;
      if !ok { return; }
      var found := FindNode(nodes, ids[i]);
      assert ids[i] in ids;
      FoundIsListed(nodes, ids[i]);
      if found.None? { return false, containers; }
      containers := containers + [found.value.containerId];
    }
    if |ids| == 0 {
      ok := *;  // find the cluster
      h.failed := !ok;
      if !ok { return; }
      containers := [];
      for i := 0 to |nodes|
        invariant |containers| == i && forall j | 0 <= j < i :: containers[j] == nodes[j].containerId
      {
        containers := containers + [nodes[i].containerId];
      }
      assert ids == [];
      WholeClusterSelected(nodes, containers);
    } else {
      RequestedSelected(nodes, ids, containers);
    }
    ok := true;
  }

  /** What the containers hold once a policy was set in those of `done`, running `calls`. */
  ghost predicate EachSet(tables: map<string, Tables>, before: map<string, Tables>, done: seq<string>,
                          calls: seq<Entry>, policy: Policy, ipam: seq<IpamConfig>, style: string) {
    && tables.Keys == before.Keys
    && (forall c | c in before && c !in done :: tables[c] == before[c])
    && (forall c | c in before && c in done :: SetIn(c, tables[c], before[c], calls, policy, ipam, style))
    && (forall e | e in calls :: e.id in done)
  }

  /** Every container was reached, and nothing stopped the installation. */
  ghost predicate AllSet(done: seq<string>, calls: seq<Entry>, policy: Policy) {
    && !Halted(policy, calls)
    && forall c | c in done :: FlushTried(calls, c) && (OnlyFlushes(policy) || Flushed(calls, c))
  }

  /** Setting the policy once more: what counts is the log as a whole. */
  lemma SetAgain(c: string, next: Tables, now: Tables, before: Tables, calls: seq<Entry>, more: seq<Entry>,
                 policy: Policy, ipam: seq<IpamConfig>, style: string)
    requires SetIn(c, now, before, calls, policy, ipam, style) && !Halted(policy, calls)
    requires SetIn(c, next, now, more, policy, ipam, style) && forall e | e in more :: e.id == c
    ensures SetIn(c, next, before, calls + more, policy, ipam, style)
  {
  }

  lemma StillSet(d: string, now: Tables, before: Tables, calls: seq<Entry>, more: seq<Entry>, c: string, policy: Policy,
                 ipam: seq<IpamConfig>, style: string)
    requires SetIn(d, now, before, calls, policy, ipam, style) && !Halted(policy, calls)
    requires d != c && forall e | e in more :: e.id == c
    ensures SetIn(d, now, before, calls + more, policy, ipam, style)
  {
  }

  lemma AllSetExtends(done: seq<string>, calls: seq<Entry>, c: string, more: seq<Entry>, policy: Policy)
    requires AllSet(done, calls, policy) && FlushTried(more, c) && (OnlyFlushes(policy) || Flushed(more, c))
             && !Halted(policy, more)
    ensures AllSet(done + [c], calls + more, policy)
  {
  }

  lemma EachSetExtends(tables: map<string, Tables>, next: Tables, before: map<string, Tables>, done: seq<string>,
                       c: string, calls: seq<Entry>, more: seq<Entry>, policy: Policy, ipam: seq<IpamConfig>,
                       style: string)
    requires EachSet(tables, before, done, calls, policy, ipam, style) && !Halted(policy, calls) && c in before
    requires SetIn(c, next, tables[c], more, policy, ipam, style) && forall e | e in more :: e.id == c
    ensures EachSet(tables[c := next], before, done + [c], calls + more, policy, ipam, style)
  {
    assert SetIn(c, tables[c], before[c], calls, policy, ipam, style);
    SetAgain(c, next, tables[c], before[c], calls, more, policy, ipam, style);
    forall d | d in before && d in done && d != c
      ensures SetIn(d, tables[d], before[d], calls + more, policy, ipam, style)
    {
      StillSet(d, tables[d], before[d], calls, more, c, policy, ipam, style);
    }
  }

  /** How one setting of the policy went. */
  ghost predicate Setting(c: string, next: Tables, was: Tables, more: seq<Entry>, ok: bool, policy: Policy,
                          ipam: seq<IpamConfig>, style: string) {
    && SetIn(c, next, was, more, policy, ipam, style) && (forall e | e in more :: e.id == c)
    && (ok ==> FlushTried(more, c) && (OnlyFlushes(policy) || Flushed(more, c)) && !Halted(policy, more))
  }

  lemma NextSet(tables: map<string, Tables>, next: Tables, start: map<string, Tables>, containers: seq<string>, i: nat,
                calls: seq<Entry>, more: seq<Entry>, policy: Policy, ipam: seq<IpamConfig>, style: string, ok: bool)
    requires i < |containers| && containers[i] in start
    requires EachSet(tables, start, containers[..i], calls, policy, ipam, style)
             && AllSet(containers[..i], calls, policy)
    requires Setting(containers[i], next, tables[containers[i]], more, ok, policy, ipam, style)
    ensures EachSet(tables[containers[i] := next], start, containers[..i + 1], calls + more, policy, ipam, style)
    ensures ok ==> AllSet(containers[..i + 1], calls + more, policy)
  {
    EachSetExtends(tables, next, start, containers[..i], containers[i], calls, more, policy, ipam, style);
    if ok { AllSetExtends(containers[..i], calls, containers[i], more, policy); }
    assert containers[..i + 1] == containers[..i] + [containers[i]];
  }

  ghost predicate CanSet(policy: Policy, ipam: seq<IpamConfig>) {
    OnlyFlushes(policy) || (!NoNodeRange(ipam) && !policy.mode.UnknownMode?)
  }

  lemma LogAssociates(began: seq<Entry>, calls: seq<Entry>, more: seq<Entry>)
    ensures began + calls + more == began + (calls + more)
  {
  }

  /** Sets the policy in one container, whose rules become `next`. */
  method SetOne(h: Host, c: string, policy: Policy, style: string)
    returns (ok: bool, ghost next: Tables, ghost more: seq<Entry>)
    requires h.Valid() && !h.failed && c in h.tables
    modifies h`tables, h`log, h`failed
    ensures h.Valid() && h.log == old(h.log) + more && h.tables == old(h.tables)[c := next]
    ensures Setting(c, next, old(h.tables)[c], more, ok, policy, h.ipam, style)
    ensures ok <==> !h.failed && CanSet(policy, h.ipam)
  {
    ok, more := h.SetTrafficControl(c, policy, style);
    next := h.tables[c];
  }

  /** Sets one policy in each of the containers, in order, until one fails. */
  method SetEach(h: Host, containers: seq<string>, policy: Policy, style: string)
    returns (ok: bool, ghost calls: seq<Entry>, ghost done: seq<string>)
    requires h.Valid() && !h.failed && forall c | c in containers :: c in h.tables
    modifies h`tables, h`log, h`failed
    ensures h.Valid() && h.log == old(h.log) + calls
    ensures EachSet(h.tables, old(h.tables), done, calls, policy, h.ipam, style) && done <= containers
    ensures ok ==> done == containers && AllSet(done, calls, policy)
    ensures ok <==> !h.failed && (containers == [] || CanSet(policy, h.ipam))
  {
    calls, done := [], [];
    for i := 0 to |containers|
      invariant h.Valid() && !h.failed && h.log == old(h.log) + calls && done == containers[..i]
      invariant EachSet(h.tables, old(h.tables), containers[..i], calls, policy, h.ipam, style)
      invariant AllSet(containers[..i], calls, policy)
      invariant i > 0 ==> CanSet(policy, h.ipam)
    {
      ghost var tables, next, more := h.tables, *, *;
      ok, next, more := SetOne(h, containers[i], policy, style);
      NextSet(tables, next, old(h.tables), containers, i, calls, more, policy, h.ipam, style, ok);
      LogAssociates(old(h.log), calls, more);
      calls, done := calls + more, containers[..i + 1];
      if !ok { return; }
    }
    ok := true;
  }

  /** The network that the host's operations work with. */
  ghost predicate IsNetwork(ipam: seq<IpamConfig>, net: Network) {
    NoNodeRange(ipam) || IsNodeRange(ipam, net.gateway, net.range)
  }

  lemma SetInLeaves(nodes: seq<NodeInfo>, net: Network, op: Operation, c: string, now: Tables, before: Tables,
                    calls: seq<Entry>, ipam: seq<IpamConfig>)
    requires IsNetwork(ipam, net) && SetIn(c, now, before, calls, PolicyOf(nodes, op), ipam, StyleOf(op))
             && c in Touched(nodes, op)
    ensures Leaves(OutcomeOf(nodes, op, calls, c), now, before, net)
  {
    var policy := PolicyOf(nodes, op);
    IdentifyMeans(ipam);
    match OutcomeOf(nodes, op, calls, c) {
      case Spared =>
      case Complete(_, _) =>
        if OnlyFlushes(policy) {
          forall p: Packet ensures Accepted(now.input, p) && Permits(policy, net, p.source) {}
        } else {
          InstalledImplements(now, policy, net, StyleOf(op));
        }
      case Cut(_, _) =>
    }
  }

  /** What each container holds is what the operation promises, as far as the log shows. */
  lemma EachLeaves(nodes: seq<NodeInfo>, net: Network, op: Operation, tables: map<string, Tables>,
                   before: map<string, Tables>, done: seq<string>, calls: seq<Entry>, ipam: seq<IpamConfig>)
    requires IsNetwork(ipam, net) && EachSet(tables, before, done, calls, PolicyOf(nodes, op), ipam, StyleOf(op))
    requires forall c | c in done :: c in Touched(nodes, op)
    ensures AppliedBy(nodes, net, op, before, tables, calls)
  {
    forall c | c in before ensures Leaves(OutcomeOf(nodes, op, calls, c), tables[c], before[c], net) {
      if c in done {
        SetInLeaves(nodes, net, op, c, tables[c], before[c], calls, ipam);
      } else {
        assert !Flushed(calls, c);
      }
    }
  }

  /** Once every container was reached, the operation took effect everywhere. */
  lemma AllSetApplied(nodes: seq<NodeInfo>, net: Network, op: Operation, before: map<string, Tables>,
                      after: map<string, Tables>, done: seq<string>, log: seq<Entry>)
    requires AppliedBy(nodes, net, op, before, after, log) && AllSet(done, log, PolicyOf(nodes, op))
    requires forall c :: c in done <==> c in Touched(nodes, op)
    ensures AllTried(nodes, op, log)
    ensures !OnlyFlushes(PolicyOf(nodes, op)) ==> Applied(nodes, net, op, before, after)
  {
  }

  lemma NothingRan(nodes: seq<NodeInfo>, net: Network, op: Operation, tables: map<string, Tables>)
    ensures AppliedBy(nodes, net, op, tables, tables, [])
  {
  }

  /** Sets the policy of an operation in the containers it touches. */
  method Perform(h: Host, nodes: seq<NodeInfo>, ghost op: Operation, containers: seq<string>, policy: Policy,
                 style: string, ghost net: Network)
    returns (ok: bool, ghost calls: seq<Entry>)
    requires h.Valid() && !h.failed && IsNetwork(h.ipam, net) && policy == PolicyOf(nodes, op) && style == StyleOf(op)
    requires forall c | c in containers :: c in h.tables
    requires forall c :: c in containers <==> c in Touched(nodes, op)
    modifies h`tables, h`log, h`failed
    ensures h.Valid() && h.log == old(h.log) + calls
    ensures AppliedBy(nodes, net, op, old(h.tables), h.tables, calls)
    ensures ok ==> AllTried(nodes, op, calls)
                   && (OnlyFlushes(policy) || Applied(nodes, net, op, old(h.tables), h.tables))
    ensures ok <==> !h.failed && (Touched(nodes, op) == {} || CanSet(policy, h.ipam))
  {
    if containers == [] { assert Touched(nodes, op) == {}; } else { assert containers[0] in Touched(nodes, op); }
    ghost var done;
    ok, calls, done := SetEach(h, containers, policy, style);
    EachLeaves(nodes, net, op, h.tables, old(h.tables), done, calls, h.ipam);
    if ok { AllSetApplied(nodes, net, op, old(h.tables), h.tables, done, calls); }
  }

  /** No list of nodes asks for all of them. */
  ghost predicate Asked(n: NodeInfo, ids: seq<string>) {
    ids == [] || n.nodeId in ids
  }

  lemma {:induction false} FindsTheOnly(nodes: seq<NodeInfo>, n: NodeInfo)
    requires DistinctIds(nodes) && n in nodes
    ensures FindNode(nodes, n.nodeId) == Some(n)
  {
    var k := |nodes| - 1;
    assert nodes == nodes[..k] + [nodes[k]];
    if nodes[k] != n {
      var i :| 0 <= i < k && nodes[i] == n;
      assert nodes[..k][i] == n;
      FindsTheOnly(nodes[..k], n);
    }
  }

  /** Exactly the containers of the nodes that are asked for are selected. */
  lemma SelectedMeans(nodes: seq<NodeInfo>, ids: seq<string>, c: string)
    requires DistinctIds(nodes)
    ensures c in Selected(nodes, ids) <==> exists n :: n in nodes && Asked(n, ids) && n.containerId == c
  {
    if ids != [] {
      forall n | n in nodes && n.nodeId in ids ensures n.containerId in Selected(nodes, ids) { FindsTheOnly(nodes, n); }
      if c in Selected(nodes, ids) {
        var id :| id in ids && FindNode(nodes, id).Some? && FindNode(nodes, id).value.containerId == c;
        FoundIsListed(nodes, id);
      }
    }
  }

  /** What blocking this kind of traffic means for one container: blocking the nodes leaves the gateway and whatever is
      outside the node range; blocking the clients leaves the rest of the node range and the loopback addresses. */
  ghost predicate Blocked(t: Tables, kind: TrafficKind, style: string, gateway: Ipv4, range: Cidr) {
    && (forall p: Packet :: Accepted(t.input, p) <==>
          match kind
          case NodeTraffic => p.source == gateway || !range.Contains(p.source)
          case ClientTraffic => p.source != gateway
                                && (range.Contains(p.source) || 0x7F00_0000 <= p.source < 0x8000_0000)
          case AllTraffic => false
          case OtherTraffic => true)
    && (forall p: Packet :: Accepted(t.input, p) || Answer(t.input, p) == Some(StyledAnswer(style, p.tcp)))
  }

  lemma ImplementsBlocks(t: Tables, kind: TrafficKind, style: string, gateway: Ipv4, range: Cidr)
    requires Implements(t, Policy(ModeOf(kind), [], []), Network(gateway, range), style)
    ensures Blocked(t, kind, style, gateway, range)
  {
    forall p: Packet
      ensures kind.ClientTraffic? ==>
                (Accepted(t.input, p) <==> p.source != gateway
                                           && (range.Contains(p.source) || 0x7F00_0000 <= p.source < 0x8000_0000))
    {
      BlockClientsPermits(Network(gateway, range), p.source);
    }
  }

  lemma AppliedBlocks(nodes: seq<NodeInfo>, net: Network, ids: seq<string>, kind: TrafficKind, style: string,
                      before: map<string, Tables>, after: map<string, Tables>, ipam: seq<IpamConfig>)
    requires Applied(nodes, net, Block(ids, kind, style), before, after) && IsNetwork(ipam, net) && DistinctIds(nodes)
    requires forall n | n in nodes :: n.containerId in before
    ensures forall n, g, r | n in nodes && Asked(n, ids) && IsNodeRange(ipam, g, r) ::
              n.containerId in after && Blocked(after[n.containerId], kind, style, g, r)
  {
    forall n, g, r | n in nodes && Asked(n, ids) && IsNodeRange(ipam, g, r)
      ensures n.containerId in after && Blocked(after[n.containerId], kind, style, g, r)
    {
      SelectedMeans(nodes, ids, n.containerId);
      ImplementsBlocks(after[n.containerId], kind, style, g, r);
    }
  }

  /** What a partition means for one container: it lets in the gateway, whatever is outside the node range, and the
      nodes that are on the island or are no cluster nodes. */
  ghost predicate Isolated(t: Tables, nodes: seq<NodeInfo>, ids: seq<string>, gateway: Ipv4, range: Cidr) {
    forall p: Packet :: Accepted(t.input, p) <==>
      || p.source == gateway || !range.Contains(p.source)
      || exists m :: m in nodes && m.address == p.source
                     && (m.nodeId in ids || (!m.kind.ServerNode? && !m.kind.ColumnarNode?))
  }

  lemma IslandAllowedMeans(nodes: seq<NodeInfo>, ids: seq<string>, a: Ipv4)
    ensures AnyContains(IslandAllowed(nodes, ids), a)
       <==> exists m :: m in nodes && m.address == a
                        && (m.nodeId in ids || (!m.kind.ServerNode? && !m.kind.ColumnarNode?))
  {
    IslandMember(nodes, ids);
    UtilitiesMember(nodes);
    SinglesContain(Island(nodes, ids), a);
    SinglesContain(Utilities(nodes), a);
    AnyContainsConcat(Singles(Island(nodes, ids)), Singles(Utilities(nodes)), a);
  }

  lemma AppliedIsolates(nodes: seq<NodeInfo>, net: Network, ids: seq<string>, style: string,
                        before: map<string, Tables>, after: map<string, Tables>, ipam: seq<IpamConfig>)
    requires Applied(nodes, net, Partition(ids, style), before, after) && IsNetwork(ipam, net)
    requires forall n | n in nodes :: n.containerId in before
    ensures forall n, g, r | n in nodes && n.nodeId in ids && IsNodeRange(ipam, g, r) ::
              n.containerId in after && Isolated(after[n.containerId], nodes, ids, g, r)
  {
    forall n, g, r | n in nodes && n.nodeId in ids && IsNodeRange(ipam, g, r)
      ensures n.containerId in after && Isolated(after[n.containerId], nodes, ids, g, r)
    {
      IslandMember(nodes, ids);
      assert n in Island(nodes, ids);
      assert Implements(after[n.containerId], Policy(BlockNodes, [], IslandAllowed(nodes, ids)), Network(g, r), style);
      forall p: Packet { IslandAllowedMeans(nodes, ids, p.source); }
    }
  }

  lemma FlushedAcceptsAll(nodes: seq<NodeInfo>, net: Network, ids: seq<string>, before: map<string, Tables>,
                          after: map<string, Tables>, log: seq<Entry>)
    requires AppliedBy(nodes, net, Allow(ids), before, after, log) && DistinctIds(nodes)
    requires forall n | n in nodes :: n.containerId in before
    ensures forall n | n in nodes && Asked(n, ids) && Flushed(log, n.containerId) ::
              n.containerId in after && AcceptsAll(after[n.containerId])
  {
    forall n | n in nodes && Asked(n, ids) && Flushed(log, n.containerId)
      ensures n.containerId in after && AcceptsAll(after[n.containerId])
    {
      SelectedMeans(nodes, ids, n.containerId);
      AllowRestores(nodes, net, ids, before, after, log, n.containerId);
    }
  }

  /** Sets the policy in the containers that were selected. */
  method PerformBlock(h: Host, nodes: seq<NodeInfo>, ghost ids: seq<string>, containers: seq<string>, kind: TrafficKind,
                      style: string, ghost net: Network)
    returns (ok: bool, ghost calls: seq<Entry>)
    requires Hosts(h, nodes) && !h.failed && IsNetwork(h.ipam, net)
    requires forall c | c in containers :: c in h.tables
    requires forall c :: c in containers <==> c in Selected(nodes, ids)
    modifies h`tables, h`log, h`failed
    ensures Hosts(h, nodes) && h.log == old(h.log) + calls
    ensures AppliedBy(nodes, net, Block(ids, kind, style), old(h.tables), h.tables, calls)
    ensures ok ==> Applied(nodes, net, Block(ids, kind, style), old(h.tables), h.tables)
    ensures ok <==> !h.failed && (Selected(nodes, ids) == {} || (!NoNodeRange(h.ipam) && !kind.OtherTraffic?))
  {
    ok, calls := Perform(h, nodes, Block(ids, kind, style), containers, Policy(ModeOf(kind), [], []), style, net);
  }

  /** `AppliedBy` says what the containers hold in any case, also where the operation stopped. */
  method BlockNodeTraffic(h: Host, nodes: seq<NodeInfo>, ids: seq<string>, kind: TrafficKind, style: string,
                          ghost net: Network)
    returns (ok: bool, ghost calls: seq<Entry>)
    requires Hosts(h, nodes) && !h.failed && IsNetwork(h.ipam, net)
    modifies h`tables, h`log, h`failed
    ensures Hosts(h, nodes) && h.log == old(h.log) + calls
    ensures AppliedBy(nodes, net, Block(ids, kind, style), old(h.tables), h.tables, calls)
    ensures ok ==> Applied(nodes, net, Block(ids, kind, style), old(h.tables), h.tables)
    ensures ok && DistinctIds(nodes) ==> forall n, g, r | n in nodes && Asked(n, ids) && IsNodeRange(h.ipam, g, r) ::
              n.containerId in h.tables && Blocked(h.tables[n.containerId], kind, style, g, r)
    ensures ok <==> !h.failed && (forall id | id in ids :: id in IdsOf(nodes))
                    && (Selected(nodes, ids) == {} || (!NoNodeRange(h.ipam) && !kind.OtherTraffic?))
  {
    calls := [];
    NothingRan(nodes, net, Block(ids, kind, style), h.tables);
    var containers;
    ok, containers := SelectContainers(h, nodes, ids);
    if !ok { return; }
    ok, calls := PerformBlock(h, nodes, ids, containers, kind, style, net);
    if ok && DistinctIds(nodes) { AppliedBlocks(nodes, net, ids, kind, style, old(h.tables), h.tables, h.ipam); }
  }

  /** Tries to flush every selected container, and succeeds whether or not the flushes worked. */
  method AllowNodeTraffic(h: Host, nodes: seq<NodeInfo>, ids: seq<string>, ghost net: Network)
    returns (ok: bool, ghost calls: seq<Entry>)
    requires Hosts(h, nodes) && !h.failed && IsNetwork(h.ipam, net)
    modifies h`tables, h`log, h`failed
    ensures Hosts(h, nodes) && h.log == old(h.log) + calls
    ensures AppliedBy(nodes, net, Allow(ids), old(h.tables), h.tables, calls)
    ensures ok ==> AllTried(nodes, Allow(ids), calls)
    ensures DistinctIds(nodes) ==> forall n | n in nodes && Asked(n, ids) && Flushed(calls, n.containerId) ::
              n.containerId in h.tables && AcceptsAll(h.tables[n.containerId])
    ensures ok <==> !h.failed && forall id | id in ids :: id in IdsOf(nodes)
  {
    calls := [];
    NothingRan(nodes, net, Allow(ids), h.tables);
    var containers;
    ok, containers := SelectContainers(h, nodes, ids);
    if !ok { return; }
    ok, calls := Perform(h, nodes, Allow(ids), containers, Policy(AllowAll, [], []), "", net);
    if DistinctIds(nodes) { FlushedAcceptsAll(nodes, net, ids, old(h.tables), h.tables, calls); }
  }

  /** Fails without touching anything if some requested node is missing or requested twice. */
  method PartitionNodeTraffic(h: Host, nodes: seq<NodeInfo>, ids: seq<string>, style: string, ghost net: Network)
    returns (ok: bool, ghost calls: seq<Entry>)
    requires Hosts(h, nodes) && !h.failed && IsNetwork(h.ipam, net) && DistinctIds(nodes)
    modifies h`tables, h`log, h`failed
    ensures Hosts(h, nodes) && h.log == old(h.log) + calls
    ensures AppliedBy(nodes, net, Partition(ids, style), old(h.tables), h.tables, calls)
    ensures ok ==> Applied(nodes, net, Partition(ids, style), old(h.tables), h.tables)
    ensures ok ==> forall n, g, r | n in nodes && n.nodeId in ids && IsNodeRange(h.ipam, g, r) ::
              n.containerId in h.tables && Isolated(h.tables[n.containerId], nodes, ids, g, r)
    ensures !Requestable(nodes, ids) ==> !ok && h.tables == old(h.tables) && calls == []
    ensures ok <==> !h.failed && Requestable(nodes, ids) && (ids == [] || !NoNodeRange(h.ipam))
  {
    calls := [];
    NothingRan(nodes, net, Partition(ids, style), h.tables);
    ok := *;  // find the cluster
    h.failed := !ok;
    if !ok { return; }
    LengthCheckIsExact(nodes, ids);
    var island := CollectIsland(nodes, ids);
    if |island| != |ids| { return false, calls; }
    var allowed := CollectAllowed(nodes, ids);
    var containers := ContainerIds(island);
    IslandMember(nodes, ids);
    NothingToTouch(nodes, ids, style);
    ok, calls := Perform(h, nodes, Partition(ids, style), containers, Policy(BlockNodes, [], allowed), style, net);
    if ok && ids != [] { AppliedIsolates(nodes, net, ids, style, old(h.tables), h.tables, h.ipam); }
  }

  method ContainerIds(nodes: seq<NodeInfo>) returns (containers: seq<string>)
    ensures forall c :: c in containers <==> exists n :: n in nodes && n.containerId == c
  {
    containers := [];
    for i := 0 to |nodes|
      invariant |containers| == i && forall j | 0 <= j < i :: containers[j] == nodes[j].containerId
    {
      containers := containers + [nodes[i].containerId];
    }
    forall n | n in nodes ensures n.containerId in containers {
      var i :| 0 <= i < |nodes| && nodes[i] == n;
      assert containers[i] == n.containerId;
    }
  }

  method CollectIsland(nodes: seq<NodeInfo>, ids: seq<string>) returns (island: seq<NodeInfo>)
    ensures island == Island(nodes, ids)
  {
    island := [];
    for i := 0 to |nodes|
      invariant island == Island(nodes[..i], ids)
    {
      assert nodes[..i + 1][..i] == nodes[..i];
      if nodes[i].nodeId in ids { island := island + [nodes[i]]; }
    }
    assert nodes[..|nodes|] == nodes;
  }

  method CollectAllowed(nodes: seq<NodeInfo>, ids: seq<string>) returns (allowed: seq<Cidr>)
    ensures allowed == IslandAllowed(nodes, ids)
  {
    var island := CollectIsland(nodes, ids);
    allowed := CollectSingles(island);
    allowed := AppendUtilities(allowed, nodes);
  }

  method CollectSingles(nodes: seq<NodeInfo>) returns (cidrs: seq<Cidr>)
    ensures cidrs == Singles(nodes)
  {
    cidrs := [];
    for i := 0 to |nodes|
      invariant cidrs == Singles(nodes[..i])
    {
      assert nodes[..i + 1][..i] == nodes[..i];
      cidrs := cidrs + [Single(nodes[i].address)];
    }
    assert nodes[..|nodes|] == nodes;
  }

  lemma SinglesExtend(nodes: seq<NodeInfo>, n: NodeInfo)
    ensures Singles(nodes + [n]) == Singles(nodes) + [Single(n.address)]
  {
  }

  lemma UtilitiesNext(nodes: seq<NodeInfo>, i: nat)
    requires i < |nodes|
    ensures Singles(Utilities(nodes[..i + 1]))
         == Singles(Utilities(nodes[..i])) + if nodes[i].IsClusterNode() then [] else [Single(nodes[i].address)]
  {
    assert nodes[..i + 1][..i] == nodes[..i];
    SinglesExtend(Utilities(nodes[..i]), nodes[i]);
  }

  lemma AppendAssociates(a: seq<Cidr>, b: seq<Cidr>, c: Cidr)
    ensures a + b + [c] == a + (b + [c])
  {
  }

  method AppendUtilities(island: seq<Cidr>, nodes: seq<NodeInfo>) returns (cidrs: seq<Cidr>)
    ensures cidrs == island + Singles(Utilities(nodes))
  {
    cidrs := island;
    ghost var appended: seq<Cidr> := [];
    for i := 0 to |nodes|
      invariant cidrs == island + appended && appended == Singles(Utilities(nodes[..i]))
    {
      UtilitiesNext(nodes, i);
      if !nodes[i].IsClusterNode() {
        AppendAssociates(island, appended, Single(nodes[i].address));
        cidrs := cidrs + [Single(nodes[i].address)];
        appended := appended + [Single(nodes[i].address)];
      }
    }
    assert nodes[..|nodes|] == nodes;
  }
}
