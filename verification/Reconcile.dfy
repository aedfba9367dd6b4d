/** Which nodes a modified definition keeps, adds and removes. */
module Reconcile {
  import opened Bags
  import opened Topology
  import opened ClusterDef
  import opened Membership
  import opened RoutingSteps

  /** What makes a node interchangeable with a wanted entry. */
  datatype Key = Key(version: string, services: multiset<Service>)

  function NodeKey(n: NodeInfo): Key {
    Key(n.version, multiset(n.services))
  }

  function EffectiveServices(g: NodeGroup): seq<Service> {
    if |g.services| == 0 then DEFAULT_SERVICES else g.services
  }

  function WantedKey(g: NodeGroup): Key {
    Key(g.version, multiset(EffectiveServices(g)))
  }

  predicate Matches(n: NodeInfo, g: NodeGroup) {
    n.version == g.version && CompareServices(n.services, EffectiveServices(g)) == 0
  }

  ghost predicate SameKey(n: NodeInfo, g: NodeGroup) {
    NodeKey(n) == WantedKey(g)
  }

  /** The code's match test is equality of keys, hence an equivalence: this is why matching greedily is optimal. */
  lemma MatchesIsKeyEquality(n: NodeInfo, g: NodeGroup)
    ensures Matches(n, g) <==> SameKey(n, g)
  {
    CompareServicesZero(n.services, EffectiveServices(g));
  }

  function KeyOf(n: NodeInfo): multiset<Key> {
    multiset{NodeKey(n)}
  }

  function OpenKeyOf(g: NodeGroup): multiset<Key> {
    if g.forceNew then multiset{} else multiset{WantedKey(g)}
  }

  function NodeKeys(nodes: seq<NodeInfo>): multiset<Key> {
    Tally(nodes, KeyOf)
  }

  /** The keys of the entries that existing nodes may satisfy. */
  function OpenKeys(groups: seq<NodeGroup>): multiset<Key> {
    Tally(groups, OpenKeyOf)
  }

  function ClusterNodes(nodes: seq<NodeInfo>): seq<NodeInfo> {
    if nodes == [] then []
    else
      var n := nodes[|nodes| - 1];
      ClusterNodes(nodes[..|nodes| - 1]) + if n.IsClusterNode() then [n] else []
  }

  function Copies(g: NodeGroup, count: int): (r: seq<NodeGroup>)
    ensures |r| == (if count > 0 then count else 0) && forall e | e in r :: e == g.(count := 1)
  {
    if count <= 0 then [] else Copies(g, count - 1) + [g.(count := 1)]
  }

  /** One entry per wanted node. */
  function Individualized(groups: seq<NodeGroup>): seq<NodeGroup> {
    if groups == [] then []
    else
      var g := groups[|groups| - 1];
      Individualized(groups[..|groups| - 1]) + Copies(g, g.count)
  }

  // ----- what the counts ask for -----

  /** A count below one asks for no node. */
  function CountOf(g: NodeGroup): nat {
    if g.count > 0 then g.count else 0
  }

  /** How many nodes the groups ask for. */
  ghost function WantedTotal(groups: seq<NodeGroup>): nat {
    if groups == [] then 0 else CountOf(groups[0]) + WantedTotal(groups[1..])
  }

  /** How many nodes like this one, counts aside, the groups ask for. */
  ghost function TimesWanted(groups: seq<NodeGroup>, e: NodeGroup): nat {
    if groups == [] then 0
    else (if groups[0].(count := e.count) == e then CountOf(groups[0]) else 0) + TimesWanted(groups[1..], e)
  }

  /** The entries are those that the groups ask for, each as often as their counts say. */
  ghost predicate Asks(wanted: seq<NodeGroup>, groups: seq<NodeGroup>) {
    && |wanted| == WantedTotal(groups)
    && forall e :: multiset(wanted)[e] == if e.count == 1 then TimesWanted(groups, e) else 0
  }

  lemma {:induction false} TotalsExtend(groups: seq<NodeGroup>, g: NodeGroup, e: NodeGroup)
    ensures WantedTotal(groups + [g]) == WantedTotal(groups) + CountOf(g)
    ensures TimesWanted(groups + [g], e)
            == TimesWanted(groups, e) + if g.(count := e.count) == e then CountOf(g) else 0
  {
    if groups == [] {
      assert groups + [g] == [g];
    } else {
      assert (groups + [g])[1..] == groups[1..] + [g];
      TotalsExtend(groups[1..], g, e);
    }
  }

  lemma {:induction false} CopiesAsk(g: NodeGroup, count: int, e: NodeGroup)
    ensures multiset(Copies(g, count))[e]
            == if e.count == 1 && g.(count := 1) == e then (if count > 0 then count else 0) else 0
  {
    if count > 0 {
      CopiesAsk(g, count - 1, e);
      Extended(Copies(g, count - 1), g.(count := 1));
    }
  }

  /** One entry for every node that the groups ask for, and no others. */
  lemma {:induction false} IndividualizedAsks(groups: seq<NodeGroup>)
    ensures Asks(Individualized(groups), groups)
  {
    if groups != [] {
      var front, g := groups[..|groups| - 1], groups[|groups| - 1];
      IndividualizedAsks(front);
      assert groups == front + [g];
      TotalsExtend(front, g, g);
      forall e ensures multiset(Individualized(groups))[e] == if e.count == 1 then TimesWanted(groups, e) else 0 {
        TotalsExtend(front, g, e);
        CopiesAsk(g, g.count, e);
        assert multiset(Individualized(groups)) == multiset(Individualized(front)) + multiset(Copies(g, g.count));
      }
    }
  }

  /** A node that may be reused for an entry: it runs the version and the services that the entry asks for, and an entry
      without services asks for data, index, query and search. */
  ghost predicate Reusable(n: NodeInfo, e: NodeGroup) {
    && !e.forceNew && n.version == e.version
    && multiset(n.services) == multiset(if e.services == [] then ["kv", "index", "n1ql", "fts"] else e.services)
  }

  lemma ValidMeans(pairs: seq<Pair>)
    ensures ValidPairs(pairs) <==> forall p | p in pairs :: Reusable(p.node, p.entry)
  {
  }

  lemma ExhaustedMeans(toAdd: seq<NodeGroup>, toRemove: seq<NodeInfo>)
    ensures Exhausted(toAdd, toRemove) <==> forall g, n | g in toAdd && n in toRemove :: !Reusable(n, g)
  {
  }

  // ----- the reconciliation -----

  /** A pairing of existing nodes with wanted entries. */
  datatype Pair = Pair(node: NodeInfo, entry: NodeGroup)

  ghost predicate ValidPairs(pairs: seq<Pair>) {
    forall p | p in pairs :: SameKey(p.node, p.entry) && !p.entry.forceNew
  }

  function PairedNodes(pairs: seq<Pair>): seq<NodeInfo> {
    if pairs == [] then [] else PairedNodes(pairs[..|pairs| - 1]) + [pairs[|pairs| - 1].node]
  }

  function PairedEntries(pairs: seq<Pair>): seq<NodeGroup> {
    if pairs == [] then [] else PairedEntries(pairs[..|pairs| - 1]) + [pairs[|pairs| - 1].entry]
  }

  method IndividualizeGroups(groups: seq<NodeGroup>) returns (wanted: seq<NodeGroup>)
    ensures wanted == Individualized(groups) && Asks(wanted, groups)
  {
    wanted := [];
    for i := 0 to |groups|
      invariant wanted == Individualized(groups[..i])
    {
      assert groups[..i + 1] == groups[..i] + [groups[i]];
      ghost var before := wanted;
      var j := 0;
      while j < groups[i].count
        invariant 0 <= j && (j <= groups[i].count || j == 0)
        invariant wanted == before + Copies(groups[i], j)
      {
        wanted := wanted + [groups[i].(count := 1)];
        j := j + 1;
      }
      assert Copies(groups[i], j) == Copies(groups[i], groups[i].count);
    }
    assert groups[..|groups|] == groups;
    IndividualizedAsks(groups);
  }

  method KeepClusterNodes(nodes: seq<NodeInfo>) returns (r: seq<NodeInfo>)
    ensures r == ClusterNodes(nodes)
  {
    r := [];
    for i := 0 to |nodes|
      invariant r == ClusterNodes(nodes[..i])
    {
      assert nodes[..i + 1] == nodes[..i] + [nodes[i]];
      if nodes[i].IsClusterNode() { r := r + [nodes[i]]; }
    }
    assert nodes[..|nodes|] == nodes;
  }

  /** The first candidate that satisfies the entry. */
  method FindMatch(candidates: seq<NodeInfo>, entry: NodeGroup) returns (found: bool, at: nat)
    ensures found ==> at < |candidates| && SameKey(candidates[at], entry)
    ensures found ==> forall j | 0 <= j < at :: !SameKey(candidates[j], entry)
    ensures !found ==> forall n | n in candidates :: !SameKey(n, entry)
  {
    at := 0;
    while at < |candidates|
      invariant at <= |candidates|
      invariant forall j | 0 <= j < at :: !SameKey(candidates[j], entry)
    {
      MatchesIsKeyEquality(candidates[at], entry);
      if Matches(candidates[at], entry) { return true, at; }
      at := at + 1;
    }
    found := false;
  }

  ghost predicate Conserved(candidates: seq<NodeInfo>, wanted: seq<NodeGroup>, toAdd: seq<NodeGroup>,
                            toRemove: seq<NodeInfo>, pairs: seq<Pair>) {
    && ValidPairs(pairs)
    && multiset(candidates) == multiset(toRemove) + multiset(PairedNodes(pairs))
    && multiset(wanted) == multiset(toAdd) + multiset(PairedEntries(pairs))
  }

  /** No entry that may be satisfied by an existing node is left beside a node that would satisfy it. */
  ghost predicate Exhausted(toAdd: seq<NodeGroup>, toRemove: seq<NodeInfo>) {
    forall g, n | g in toAdd && n in toRemove && !g.forceNew :: !SameKey(n, g)
  }

  ghost predicate KeysConserved(candidates: seq<NodeInfo>, wanted: seq<NodeGroup>, toAdd: seq<NodeGroup>,
                                toRemove: seq<NodeInfo>, pairs: seq<Pair>) {
    && NodeKeys(candidates) == NodeKeys(toRemove) + NodeKeys(PairedNodes(pairs))
    && OpenKeys(wanted) == OpenKeys(toAdd) + NodeKeys(PairedNodes(pairs))
  }

  /** Reusing the node at `at` for the next entry. */
  lemma ReuseConserves(candidates: seq<NodeInfo>, done: seq<NodeGroup>, entry: NodeGroup, toAdd: seq<NodeGroup>,
                       toRemove: seq<NodeInfo>, pairs: seq<Pair>, at: nat)
    requires Conserved(candidates, done, toAdd, toRemove, pairs)
    requires at < |toRemove| && SameKey(toRemove[at], entry) && !entry.forceNew
    ensures Conserved(candidates, done + [entry], toAdd, RemoveAt(toRemove, at), pairs + [Pair(toRemove[at], entry)])
  {
    var pair := Pair(toRemove[at], entry);
    Extended(done, entry);
    Extended(pairs, pair);
    Extended(PairedNodes(pairs), pair.node);
    Extended(PairedEntries(pairs), pair.entry);
    MultisetWithout(toRemove, at);
    BagTransfers(multiset(candidates), multiset(toRemove), multiset(RemoveAt(toRemove, at)),
                 multiset(PairedNodes(pairs)), multiset{pair.node});
    BagAssociates(multiset(toAdd), multiset(PairedEntries(pairs)), multiset{entry});
  }

  lemma ReuseConservesKeys(candidates: seq<NodeInfo>, done: seq<NodeGroup>, entry: NodeGroup, toAdd: seq<NodeGroup>,
                           toRemove: seq<NodeInfo>, pairs: seq<Pair>, at: nat)
    requires KeysConserved(candidates, done, toAdd, toRemove, pairs)
    requires at < |toRemove| && SameKey(toRemove[at], entry) && !entry.forceNew
    ensures KeysConserved(candidates, done + [entry], toAdd, RemoveAt(toRemove, at),
                          pairs + [Pair(toRemove[at], entry)])
  {
    var pair := Pair(toRemove[at], entry);
    Extended(pairs, pair);
    TallyExtended(done, entry, OpenKeyOf);
    TallyExtended(PairedNodes(pairs), pair.node, KeyOf);
    TallyWithout(toRemove, at, KeyOf);
    BagTransfers(NodeKeys(candidates), NodeKeys(toRemove), NodeKeys(RemoveAt(toRemove, at)),
                 NodeKeys(PairedNodes(pairs)), KeyOf(pair.node));
    BagAssociates(OpenKeys(toAdd), NodeKeys(PairedNodes(pairs)), KeyOf(pair.node));
  }

  ghost predicate Progress(candidates: seq<NodeInfo>, done: seq<NodeGroup>, toAdd: seq<NodeGroup>,
                           toRemove: seq<NodeInfo>, pairs: seq<Pair>) {
    && Conserved(candidates, done, toAdd, toRemove, pairs) && KeysConserved(candidates, done, toAdd, toRemove, pairs)
    && Exhausted(toAdd, toRemove)
    && |toRemove| == |candidates| - |pairs| && |toAdd| == |done| - |pairs|
  }

  lemma ReuseProgress(candidates: seq<NodeInfo>, done: seq<NodeGroup>, entry: NodeGroup, toAdd: seq<NodeGroup>,
                      toRemove: seq<NodeInfo>, pairs: seq<Pair>, at: nat)
    requires Progress(candidates, done, toAdd, toRemove, pairs)
    requires at < |toRemove| && SameKey(toRemove[at], entry) && !entry.forceNew
    ensures Progress(candidates, done + [entry], toAdd, RemoveAt(toRemove, at), pairs + [Pair(toRemove[at], entry)])
  {
    ReuseConserves(candidates, done, entry, toAdd, toRemove, pairs, at);
    ReuseConservesKeys(candidates, done, entry, toAdd, toRemove, pairs, at);
    StaysExhausted(toAdd, toRemove, at);
  }

  lemma StaysExhausted(toAdd: seq<NodeGroup>, toRemove: seq<NodeInfo>, at: nat)
    requires at < |toRemove| && Exhausted(toAdd, toRemove)
    ensures Exhausted(toAdd, RemoveAt(toRemove, at))
  {
  }

  /** Adding a new node for the next entry. */
  lemma AddProgress(candidates: seq<NodeInfo>, done: seq<NodeGroup>, entry: NodeGroup, toAdd: seq<NodeGroup>,
                    toRemove: seq<NodeInfo>, pairs: seq<Pair>)
    requires Progress(candidates, done, toAdd, toRemove, pairs)
    requires entry.forceNew || forall n | n in toRemove :: !SameKey(n, entry)
    ensures Progress(candidates, done + [entry], toAdd + [entry], toRemove, pairs)
  {
  }

  /** Decides about one entry: delete it together with the first node that satisfies it, or leave it in the list. */
  method PlaceEntry(entry: NodeGroup, toAdd: seq<NodeGroup>, toRemove: seq<NodeInfo>, ghost candidates: seq<NodeInfo>,
                    ghost done: seq<NodeGroup>, ghost pairs: seq<Pair>)
    returns (toAdd': seq<NodeGroup>, toRemove': seq<NodeInfo>, ghost pairs': seq<Pair>)
    requires Progress(candidates, done, toAdd, toRemove, pairs)
    ensures Progress(candidates, done + [entry], toAdd', toRemove', pairs')
  {
    var found, at := false, 0;
    if !entry.forceNew { found, at := FindMatch(toRemove, entry); }
    if found {
      ReuseProgress(candidates, done, entry, toAdd, toRemove, pairs, at);
      toAdd', toRemove', pairs' := toAdd, RemoveAt(toRemove, at), pairs + [Pair(toRemove[at], entry)];
    } else {
      AddProgress(candidates, done, entry, toAdd, toRemove, pairs);
      toAdd', toRemove', pairs' := toAdd + [entry], toRemove, pairs;
    }
  }

  /** The first n entries have been decided. */
  ghost predicate ProgressUpTo(candidates: seq<NodeInfo>, wanted: seq<NodeGroup>, n: nat, toAdd: seq<NodeGroup>,
                               toRemove: seq<NodeInfo>, pairs: seq<Pair>)
    requires n <= |wanted|
  {
    Progress(candidates, wanted[..n], toAdd, toRemove, pairs)
  }

  method PlaceNth(wanted: seq<NodeGroup>, n: nat, toAdd: seq<NodeGroup>, toRemove: seq<NodeInfo>,
                  ghost candidates: seq<NodeInfo>, ghost pairs: seq<Pair>)
    returns (toAdd': seq<NodeGroup>, toRemove': seq<NodeInfo>, ghost pairs': seq<Pair>)
    requires n < |wanted| && ProgressUpTo(candidates, wanted, n, toAdd, toRemove, pairs)
    ensures ProgressUpTo(candidates, wanted, n + 1, toAdd', toRemove', pairs')
  {
    NextPrefix(wanted, n);
    toAdd', toRemove', pairs' := PlaceEntry(wanted[n], toAdd, toRemove, candidates, wanted[..n], pairs);
  }

  lemma NothingDone(candidates: seq<NodeInfo>, wanted: seq<NodeGroup>)
    ensures ProgressUpTo(candidates, wanted, 0, [], candidates, [])
  {
  }

  lemma AllDone(candidates: seq<NodeInfo>, wanted: seq<NodeGroup>, toAdd: seq<NodeGroup>, toRemove: seq<NodeInfo>,
                pairs: seq<Pair>)
    requires ProgressUpTo(candidates, wanted, |wanted|, toAdd, toRemove, pairs)
    ensures Progress(candidates, wanted, toAdd, toRemove, pairs)
  {
    assert wanted[..|wanted|] == wanted;
  }

  /** Matches greedily; nothing is lost, nothing is matched twice, and as many nodes as possible are reused:
      for every key, the smaller of the two counts. */
  method Match(candidates: seq<NodeInfo>, wanted: seq<NodeGroup>)
    returns (toAdd: seq<NodeGroup>, toRemove: seq<NodeInfo>, ghost pairs: seq<Pair>)
    ensures Conserved(candidates, wanted, toAdd, toRemove, pairs)
    ensures Exhausted(toAdd, toRemove)
    ensures forall p | p in pairs :: Reusable(p.node, p.entry)
    ensures forall g, n | g in toAdd && n in toRemove :: !Reusable(n, g)
    ensures NodeKeys(PairedNodes(pairs)) == NodeKeys(candidates) * OpenKeys(wanted)
    ensures |pairs| == |NodeKeys(candidates) * OpenKeys(wanted)|
    ensures |toRemove| == |candidates| - |pairs| && |toAdd| == |wanted| - |pairs|
  {
    toAdd, toRemove, pairs := [], candidates, [];
    NothingDone(candidates, wanted);
    for i := 0 to |wanted|
      invariant ProgressUpTo(candidates, wanted, i, toAdd, toRemove, pairs)
    {
      toAdd, toRemove, pairs := PlaceNth(wanted, i, toAdd, toRemove, candidates, pairs);
    }
    AllDone(candidates, wanted, toAdd, toRemove, pairs);
    ValidMeans(pairs);
    ExhaustedMeans(toAdd, toRemove);
    ExhaustedIsMinimum(candidates, wanted, toAdd, toRemove, pairs);
    PairedNodesLength(pairs);
    TallyOfOnes(PairedNodes(pairs), KeyOf);
  }

  lemma {:induction false} PairedNodesLength(pairs: seq<Pair>)
    ensures |PairedNodes(pairs)| == |pairs| == |PairedEntries(pairs)|
  {
    if pairs != [] { PairedNodesLength(pairs[..|pairs| - 1]); }
  }

  lemma ExhaustedIsMinimum(candidates: seq<NodeInfo>, wanted: seq<NodeGroup>, toAdd: seq<NodeGroup>,
                           toRemove: seq<NodeInfo>, pairs: seq<Pair>)
    requires KeysConserved(candidates, wanted, toAdd, toRemove, pairs) && Exhausted(toAdd, toRemove)
    ensures NodeKeys(PairedNodes(pairs)) == NodeKeys(candidates) * OpenKeys(wanted)
  {
    ExhaustedIsDisjoint(toAdd, toRemove);
    CommonPart(NodeKeys(candidates), OpenKeys(wanted), NodeKeys(toRemove), OpenKeys(toAdd),
               NodeKeys(PairedNodes(pairs)));
  }

  lemma ExhaustedIsDisjoint(toAdd: seq<NodeGroup>, toRemove: seq<NodeInfo>)
    requires Exhausted(toAdd, toRemove)
    ensures forall k :: NodeKeys(toRemove)[k] == 0 || OpenKeys(toAdd)[k] == 0
  {
    forall k ensures NodeKeys(toRemove)[k] == 0 || OpenKeys(toAdd)[k] == 0 {
      if k in NodeKeys(toRemove) && k in OpenKeys(toAdd) {
        TallyMember(toRemove, KeyOf, k);
        TallyMember(toAdd, OpenKeyOf, k);
        var n :| n in toRemove && k in KeyOf(n);
        var g :| g in toAdd && k in OpenKeyOf(g);
        assert SameKey(n, g);
      }
    }
  }

  // ----- no matching reuses more -----

  lemma {:induction false} NodeKeysMonotone(a: seq<NodeInfo>, b: seq<NodeInfo>)
    requires multiset(a) <= multiset(b)
    ensures NodeKeys(a) <= NodeKeys(b)
  {
    if a != [] {
      var k := |a| - 1;
      var i := TakeOne(a, b);
      TallyWithout(b, i, KeyOf);
      NodeKeysMonotone(a[..k], RemoveAt(b, i));
    }
  }

  lemma {:induction false} PairsWithinWanted(pairs: seq<Pair>, wanted: seq<NodeGroup>)
    requires ValidPairs(pairs) && multiset(PairedEntries(pairs)) <= multiset(wanted)
    ensures NodeKeys(PairedNodes(pairs)) <= OpenKeys(wanted)
  {
    if pairs != [] {
      var k := |pairs| - 1;
      var last := pairs[k];
      assert last in pairs;
      var entries, nodes := PairedEntries(pairs[..k]), PairedNodes(pairs[..k]);
      assert (entries + [last.entry])[..|entries|] == entries && (nodes + [last.node])[..|nodes|] == nodes;
      var i := TakeOne(PairedEntries(pairs), wanted);
      TallyWithout(wanted, i, OpenKeyOf);
      PairsWithinWanted(pairs[..k], RemoveAt(wanted, i));
    }
  }

  /** Every valid one-to-one matching of existing nodes with wanted entries reuses at most as many nodes. */
  lemma NoMatchingReusesMore(candidates: seq<NodeInfo>, wanted: seq<NodeGroup>, pairs: seq<Pair>)
    requires ValidPairs(pairs)
    requires multiset(PairedNodes(pairs)) <= multiset(candidates)
    requires multiset(PairedEntries(pairs)) <= multiset(wanted)
    ensures |pairs| <= |NodeKeys(candidates) * OpenKeys(wanted)|
  {
    PairedNodesLength(pairs);
    TallyOfOnes(PairedNodes(pairs), KeyOf);
    NodeKeysMonotone(PairedNodes(pairs), candidates);
    PairsWithinWanted(pairs, wanted);
    BelowBoth(NodeKeys(PairedNodes(pairs)), NodeKeys(candidates), OpenKeys(wanted));
  }

  // ----- when nothing changes, and what is never reused -----

  lemma {:induction false} PairedEntriesOpen(pairs: seq<Pair>)
    requires ValidPairs(pairs)
    ensures forall g | g in PairedEntries(pairs) :: !g.forceNew
  {
    if pairs != [] {
      var k := |pairs| - 1;
      assert pairs[k] in pairs;
      PairedEntriesOpen(pairs[..k]);
    }
  }

  lemma AllPairedAreOpen(wanted: seq<NodeGroup>, pairs: seq<Pair>)
    requires ValidPairs(pairs) && multiset(wanted) == multiset(PairedEntries(pairs))
    ensures forall g | g in wanted :: !g.forceNew
  {
    PairedEntriesOpen(pairs);
    forall g | g in wanted ensures !g.forceNew { assert g in multiset(wanted) && g in multiset(PairedEntries(pairs)); }
  }

  lemma SameKeysMeet(keys: multiset<Key>, other: multiset<Key>)
    requires keys == other
    ensures |keys * other| == |keys|
  {
    assert keys * other == keys;
  }

  /** Nothing is added or removed if and only if no entry forces a new node and the keys agree. */
  lemma NothingChanges(candidates: seq<NodeInfo>, wanted: seq<NodeGroup>, toAdd: seq<NodeGroup>,
                       toRemove: seq<NodeInfo>, pairs: seq<Pair>)
    requires Conserved(candidates, wanted, toAdd, toRemove, pairs)
    requires |pairs| == |NodeKeys(candidates) * OpenKeys(wanted)|
    requires |toRemove| == |candidates| - |pairs| && |toAdd| == |wanted| - |pairs|
    ensures toAdd == [] && toRemove == []
            <==> NodeKeys(candidates) == OpenKeys(wanted) && forall g | g in wanted :: !g.forceNew
  {
    TallyOfOnes(candidates, KeyOf);
    if toAdd == [] && toRemove == [] {
      AllPairedAreOpen(wanted, pairs);
      TallyOfOnes(wanted, OpenKeyOf);
      SameSizeBoth(NodeKeys(candidates), OpenKeys(wanted));
    } else if NodeKeys(candidates) == OpenKeys(wanted) && forall g | g in wanted :: !g.forceNew {
      TallyOfOnes(wanted, OpenKeyOf);
      SameKeysMeet(NodeKeys(candidates), OpenKeys(wanted));
    }
  }

  lemma SameSizeBoth(a: multiset<Key>, b: multiset<Key>)
    requires |a * b| == |a| == |b|
    ensures a == b
  {
    SubsetOfSameSize(a * b, a);
    SubsetOfSameSize(a * b, b);
  }

  /** Every entry asks for some service, so a node that reported none satisfies no entry. */
  lemma {:induction false} NeverReused(pairs: seq<Pair>, n: NodeInfo)
    requires ValidPairs(pairs) && n.services == []
    ensures n !in PairedNodes(pairs)
  {
    if pairs != [] {
      var last := pairs[|pairs| - 1];
      NeverReused(pairs[..|pairs| - 1], n);
      assert last in pairs && SameKey(last.node, last.entry);
      assert EffectiveServices(last.entry)[0] in multiset(last.node.services);
    }
  }

  /** A node that reported no services - it did not answer - is always removed. */
  lemma UnansweredAreRemoved(candidates: seq<NodeInfo>, wanted: seq<NodeGroup>, toAdd: seq<NodeGroup>,
                             toRemove: seq<NodeInfo>, pairs: seq<Pair>, n: NodeInfo)
    requires Conserved(candidates, wanted, toAdd, toRemove, pairs) && n in candidates && n.services == []
    ensures n in toRemove
  {
    NeverReused(pairs, n);
    assert n in multiset(candidates) && n in multiset(toRemove);
  }
}
