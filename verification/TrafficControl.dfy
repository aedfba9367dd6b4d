/** Installing a traffic policy in a container, one iptables command at a time. */
module TrafficControl {
  import opened Options
  import opened Topology
  import opened Firewall

  /** The filter tables of one container. Without iptables there are no rules. */
  datatype Tables = Tables(installed: bool, input: seq<Rule>, output: seq<Rule>)
  {
    ghost predicate Valid() {
      installed || (input == [] && output == [])
    }
  }

  datatype Chain = InputChain | OutputChain

  datatype Command = Flush | Append(chain: Chain, rule: Rule) | ListRules

  function Apply(t: Tables, c: Command): Tables {
    match c
    case Flush => t.(input := [], output := [])
    case Append(InputChain, r) => t.(input := t.input + [r])
    case Append(OutputChain, r) => t.(output := t.output + [r])
    case ListRules => t
  }

  /** A command that was run in a container, and whether it worked. */
  datatype Entry = Entry(id: string, command: Command, ok: bool)

  ghost predicate FlushTried(log: seq<Entry>, id: string) {
    exists e :: e in log && e.id == id && e.command.Flush?
  }

  ghost predicate Flushed(log: seq<Entry>, id: string) {
    Entry(id, Flush, true) in log
  }

  /** The last command that was run failed, and its failure mattered. */
  ghost predicate Stops(log: seq<Entry>) {
    log != [] && !log[|log| - 1].ok && !log[|log| - 1].command.ListRules?
  }

  /** What was run since concerns this container only, and if it failed, it ended with the failure. */
  ghost predicate Ran(before: seq<Entry>, after: seq<Entry>, id: string, failed: bool) {
    && before <= after && (forall i | |before| <= i < |after| :: after[i].id == id)
    && (failed ==> |before| < |after| && Stops(after))
  }

  ghost predicate FlushedSince(before: seq<Entry>, after: seq<Entry>, id: string) {
    exists i :: |before| <= i < |after| && after[i] == Entry(id, Flush, true)
  }

  ghost predicate SameRules(a: Tables, b: Tables) {
    a.input == b.input && a.output == b.output
  }

  /** Some of the rules, from the first on, were appended. */
  ghost predicate Appended(before: seq<Rule>, after: seq<Rule>, rules: seq<Rule>) {
    before <= after <= before + rules
  }

  lemma AppendedMore(before: seq<Rule>, first: seq<Rule>, after: seq<Rule>, second: seq<Rule>)
    requires Appended(before + first, after, second)
    ensures Appended(before, after, first + second)
  {
    assert before + first + second == before + (first + second);
  }

  lemma AppendedSome(before: seq<Rule>, after: seq<Rule>, first: seq<Rule>, second: seq<Rule>)
    requires Appended(before, after, first)
    ensures Appended(before, after, first + second)
  {
    assert before + first + second == before + (first + second);
  }

  /** What the inspection of the Docker network reports; missing fields are None. */
  datatype IpamConfig = IpamConfig(gateway: Option<Ipv4>, subnet: Option<Cidr>, ipRange: Option<Cidr>)

  /** The node range and gateway, if the first configuration has them. */
  function IdentifyNetwork(configs: seq<IpamConfig>): Option<Network> {
    if |configs| < 1 then None
    else
      var range := if configs[0].ipRange.Some? then configs[0].ipRange else configs[0].subnet;
      if range.None? || configs[0].gateway.None? then None
      else Some(Network(configs[0].gateway.value, range.value))
  }

  /** The first configuration has this gateway, and this is its node range: the IP range, or the subnet if it has
      none. */
  ghost predicate IsNodeRange(ipam: seq<IpamConfig>, gateway: Ipv4, range: Cidr) {
    && ipam != [] && ipam[0].gateway == Some(gateway)
    && if ipam[0].ipRange.Some? then range == ipam[0].ipRange.value else ipam[0].subnet == Some(range)
  }

  ghost predicate NoNodeRange(ipam: seq<IpamConfig>) {
    ipam == [] || ipam[0].gateway.None? || (ipam[0].ipRange.None? && ipam[0].subnet.None?)
  }

  lemma IdentifyMeans(ipam: seq<IpamConfig>)
    ensures IdentifyNetwork(ipam).None? <==> NoNodeRange(ipam)
    ensures forall g, r :: IsNodeRange(ipam, g, r) <==> IdentifyNetwork(ipam) == Some(Network(g, r))
  {
  }

  /** The container lets in exactly the packets that the policy permits in this network. */
  ghost predicate LetsIn(t: Tables, policy: Policy, gateway: Ipv4, range: Cidr) {
    forall p: Packet :: Accepted(t.input, p) <==> Permits(policy, Network(gateway, range), p.source)
  }

  lemma InstalledLetsIn(t: Tables, policy: Policy, ipam: seq<IpamConfig>, style: string, gateway: Ipv4, range: Cidr)
    requires Installed(t, policy, ipam, style) && IsNodeRange(ipam, gateway, range)
    ensures LetsIn(t, policy, gateway, range)
  {
    IdentifyMeans(ipam);
    if !OnlyFlushes(policy) {
      forall p: Packet ensures Accepted(t.input, p) <==> Permits(policy, Network(gateway, range), p.source) {
        CompileInputMeansPolicy(policy, Network(gateway, range), style, p);
      }
    }
  }

  lemma SetLetsIn(id: string, now: Tables, before: Tables, log: seq<Entry>, policy: Policy, ipam: seq<IpamConfig>,
                  style: string)
    requires SetIn(id, now, before, log, policy, ipam, style) && Flushed(log, id) && !Halted(policy, log)
    ensures forall g, r | IsNodeRange(ipam, g, r) :: LetsIn(now, policy, g, r)
  {
    forall g, r | IsNodeRange(ipam, g, r) ensures LetsIn(now, policy, g, r) {
      InstalledLetsIn(now, policy, ipam, style, g, r);
    }
  }

  /** Allowing everything takes no rules, and so no more than a flush. */
  predicate OnlyFlushes(policy: Policy) {
    policy.mode.AllowAll? && policy.blocked == []
  }

  /** The rules in place are those of the policy. */
  ghost predicate Installed(t: Tables, policy: Policy, ipam: seq<IpamConfig>, style: string) {
    if OnlyFlushes(policy) then t.input == t.output == []
    else
      var net := IdentifyNetwork(ipam);
      && net.Some?
      && t.input == CompileInput(policy, net.value, style) && t.output == CompileOutput(policy, net.value, style)
  }

  /** The installation of the policy ended early. */
  ghost predicate Halted(policy: Policy, log: seq<Entry>) {
    !OnlyFlushes(policy) && Stops(log)
  }

  ghost predicate HaltedIn(policy: Policy, log: seq<Entry>, id: string) {
    Halted(policy, log) && log[|log| - 1].id == id
  }

  /** What the container holds once the policy was set in it, perhaps more than once, running the commands of the log:
      without a flush its rules as before, a beginning of the policy's rules if that is where it ended early, or else
      all of them. */
  ghost predicate SetIn(id: string, now: Tables, before: Tables, log: seq<Entry>, policy: Policy, ipam: seq<IpamConfig>,
                        style: string) {
    if !Flushed(log, id) then SameRules(now, before)
    else if HaltedIn(policy, log, id) then
      IdentifyNetwork(ipam).Some? && now.input <= CompileInput(policy, IdentifyNetwork(ipam).value, style)
    else Installed(now, policy, ipam, style)
  }

  lemma InstalledIsSet(id: string, now: Tables, was: Tables, before: seq<Entry>, after: seq<Entry>, failed: bool,
                       policy: Policy, ipam: seq<IpamConfig>, style: string)
    requires Ran(before, after, id, failed) && !OnlyFlushes(policy) && IdentifyNetwork(ipam).Some?
    requires var net := IdentifyNetwork(ipam).value;
             if !FlushedSince(before, after, id) then SameRules(now, was)
             else if failed then now.input <= CompileInput(policy, net, style)
             else now.input == CompileInput(policy, net, style) && now.output == CompileOutput(policy, net, style)
    ensures var calls := after[|before|..];
            && after == before + calls && (forall e | e in calls :: e.id == id)
            && SetIn(id, now, was, calls, policy, ipam, style)
            && (Flushed(calls, id) <==> FlushedSince(before, after, id))
            && (!Stops(after) ==> !Stops(calls)) && (Flushed(calls, id) ==> FlushTried(calls, id))
  {
  }

  lemma AllowNext(cidrs: seq<Cidr>, i: nat)
    requires i < |cidrs|
    ensures AllowEach(cidrs[..i + 1]) == AllowEach(cidrs[..i]) + [AllowRule(Some(cidrs[i]))]
    ensures AllowEach(cidrs[..i + 1]) <= AllowEach(cidrs)
  {
    assert cidrs[..i + 1][..i] == cidrs[..i];
    AllowPrefix(cidrs, i + 1);
  }

  lemma {:induction false} AllowPrefix(cidrs: seq<Cidr>, i: nat)
    requires i <= |cidrs|
    ensures AllowEach(cidrs[..i]) <= AllowEach(cidrs)
  {
    if i == |cidrs| {
      assert cidrs[..i] == cidrs;
    } else {
      var k := |cidrs| - 1;
      AllowPrefix(cidrs[..k], i);
      assert cidrs[..k][..i] == cidrs[..i];
    }
  }

  lemma BlockNext(cidrs: seq<Cidr>, style: string, i: nat)
    requires i < |cidrs|
    ensures BlockEach(cidrs[..i + 1], style) == BlockEach(cidrs[..i], style) + BlockRules(Some(cidrs[i]), style)
    ensures BlockEach(cidrs[..i + 1], style) <= BlockEach(cidrs, style)
  {
    assert cidrs[..i + 1][..i] == cidrs[..i];
    BlockPrefix(cidrs, style, i + 1);
  }

  lemma {:induction false} BlockPrefix(cidrs: seq<Cidr>, style: string, i: nat)
    requires i <= |cidrs|
    ensures BlockEach(cidrs[..i], style) <= BlockEach(cidrs, style)
  {
    if i == |cidrs| {
      assert cidrs[..i] == cidrs;
    } else {
      var k := |cidrs| - 1;
      BlockPrefix(cidrs[..k], style, i);
      assert cidrs[..k][..i] == cidrs[..i];
    }
  }

  lemma AppendedUpTo(before: seq<Rule>, after: seq<Rule>, some: seq<Rule>, all: seq<Rule>)
    requires Appended(before, after, some) && some <= all
    ensures Appended(before, after, all)
  {
    assert before + some <= before + all;
  }

  lemma RulesAssociate(a: seq<Rule>, b: seq<Rule>, c: seq<Rule>)
    ensures a + b + c == a + (b + c)
  {
  }

  /** The containers of a Docker host. `log` holds every iptables command that was run; `failed` is set when an
      operation fails that its caller reports. */
  class Host {
    const ipam: seq<IpamConfig>
    var tables: map<string, Tables>
    ghost var log: seq<Entry>
    ghost var failed: bool

    constructor (ipam: seq<IpamConfig>, tables: map<string, Tables>)
      requires forall id | id in tables :: tables[id].Valid()
      ensures this.ipam == ipam && this.tables == tables && Valid() && log == [] && !failed
    {
      this.ipam, this.tables, this.log, this.failed := ipam, tables, [], false;
    }

    ghost predicate Valid()
      reads this
    {
      forall id | id in tables :: tables[id].Valid()
    }

    /** Runs iptables in the container. It fails without effect if it is not installed, and may fail anyway. */
    method Iptables(id: string, c: Command) returns (ok: bool)
      requires Valid() && id in tables
      modifies `tables, `log
      ensures Valid() && log == old(log) + [Entry(id, c, ok)]
      ensures tables == if ok then old(tables)[id := Apply(old(tables)[id], c)] else old(tables)
      ensures ok ==> tables[id].installed
    {
      ok := *;
      ok := ok && tables[id].installed;
      if ok { tables := tables[id := Apply(tables[id], c)]; }
      log := log + [Entry(id, c, ok)];
    }

    /** Runs iptables, installing it first if the command fails, and then tries once more. */
    method ExecIptables(id: string, c: Command) returns (ok: bool)
      requires Valid() && id in tables && !failed
      modifies `tables, `log, `failed
      ensures Valid() && failed == !ok && id in tables && tables == old(tables)[id := tables[id]]
      ensures old(log) <= log && |log| > |old(log)| && log[|log| - 1] == Entry(id, c, ok)
      ensures forall i | |old(log)| <= i < |log| - 1 :: log[i] == Entry(id, c, false)
      ensures SameRules(tables[id], if ok then Apply(old(tables)[id], c) else old(tables)[id])
      ensures ok ==> tables[id].installed
    {
      ok := Iptables(id, c);
      if !ok {
        ok := *;  // refresh the package lists
        if ok {
          ok := *;  // install the package
          if ok {
            tables := tables[id := tables[id].(installed := true)];
            ok := Iptables(id, c);
          }
        }
      }
      failed := !ok;
    }

    ghost predicate Holds(id: string, input: seq<Rule>, output: seq<Rule>)
      reads this
    {
      id in tables && tables[id].input == input && tables[id].output == output
    }

    /** Adds one rule. `began` is an earlier log, since which only this container was worked on. */
    method AppendRule(id: string, chain: Chain, rule: Rule, ghost began: seq<Entry>) returns (ok: bool)
      requires Valid() && id in tables && !failed && Ran(began, log, id, false)
      modifies `tables, `log, `failed
      ensures Valid() && failed == !ok && id in tables && tables == old(tables)[id := tables[id]]
      ensures Ran(began, log, id, failed)
      ensures SameRules(tables[id], if ok then Apply(old(tables)[id], Append(chain, rule)) else old(tables)[id])
    {
      ok := ExecIptables(id, Append(chain, rule));
    }

    /** Adds rules to one chain in order; stops at the first failure. */
    method AppendRules(id: string, chain: Chain, rules: seq<Rule>) returns (ok: bool)
      requires Valid() && id in tables && !failed
      modifies `tables, `log, `failed
      ensures Valid() && failed == !ok && id in tables && tables == old(tables)[id := tables[id]]
              && Ran(old(log), log, id, failed)
      ensures Appended(old(tables)[id].input, tables[id].input, if chain.InputChain? then rules else [])
      ensures ok ==> tables[id].input == old(tables)[id].input + if chain.InputChain? then rules else []
      ensures ok ==> tables[id].output == old(tables)[id].output + if chain.OutputChain? then rules else []
    {
      for i := 0 to |rules|
        invariant Valid() && !failed && id in tables && tables == old(tables)[id := tables[id]]
                  && Ran(old(log), log, id, failed)
        invariant tables[id].input == old(tables)[id].input + if chain.InputChain? then rules[..i] else []
        invariant tables[id].output == old(tables)[id].output + if chain.OutputChain? then rules[..i] else []
      {
        ok := AppendRule(id, chain, rules[i], old(log));
        if !ok { return; }
        assert rules[..i + 1] == rules[..i] + [rules[i]];
      }
      assert rules[..|rules|] == rules;
      ok := true;
    }

    /** The same rules in both chains. */
    method AppendToBoth(id: string, rules: seq<Rule>) returns (ok: bool)
      requires Valid() && id in tables && !failed
      modifies `tables, `log, `failed
      ensures Valid() && failed == !ok && id in tables && tables == old(tables)[id := tables[id]]
              && Ran(old(log), log, id, failed)
      ensures Appended(old(tables)[id].input, tables[id].input, rules)
      ensures ok ==> Holds(id, old(tables)[id].input + rules, old(tables)[id].output + rules)
    {
      ok := AppendRules(id, InputChain, rules);
      if !ok { return; }
      ok := AppendRules(id, OutputChain, rules);
    }

    method AppendAllowed(id: string, cidrs: seq<Cidr>) returns (ok: bool)
      requires Valid() && id in tables && !failed
      modifies `tables, `log, `failed
      ensures Valid() && failed == !ok && id in tables && tables == old(tables)[id := tables[id]]
              && Ran(old(log), log, id, failed)
      ensures Appended(old(tables)[id].input, tables[id].input, AllowEach(cidrs))
      ensures ok ==> Holds(id, old(tables)[id].input + AllowEach(cidrs), old(tables)[id].output + AllowEach(cidrs))
    {
      ghost var input, output := tables[id].input, tables[id].output;
      for i := 0 to |cidrs|
        invariant Valid() && !failed && id in tables && tables == old(tables)[id := tables[id]]
                  && Ran(old(log), log, id, failed)
        invariant Holds(id, input + AllowEach(cidrs[..i]), output + AllowEach(cidrs[..i]))
      {
        ghost var rules, added := AllowEach(cidrs[..i]), [AllowRule(Some(cidrs[i]))];
        AllowNext(cidrs, i);
        RulesAssociate(output, rules, added);
        RulesAssociate(input, rules, added);
        ok := AppendToBoth(id, [AllowRule(Some(cidrs[i]))]);
        if !ok {
          AppendedMore(input, rules, tables[id].input, added);
          AppendedUpTo(input, tables[id].input, AllowEach(cidrs[..i + 1]), AllowEach(cidrs));
          return;
        }
      }
      assert cidrs[..|cidrs|] == cidrs;
      ok := true;
    }

    method AppendBlocked(id: string, cidrs: seq<Cidr>, style: string) returns (ok: bool)
      requires Valid() && id in tables && !failed
      modifies `tables, `log, `failed
      ensures Valid() && failed == !ok && id in tables && tables == old(tables)[id := tables[id]]
              && Ran(old(log), log, id, failed)
      ensures Appended(old(tables)[id].input, tables[id].input, BlockEach(cidrs, style))
      ensures ok ==> Holds(id, old(tables)[id].input + BlockEach(cidrs, style),
                           old(tables)[id].output + BlockEach(cidrs, style))
    {
      ghost var input, output := tables[id].input, tables[id].output;
      for i := 0 to |cidrs|
        invariant Valid() && !failed && id in tables && tables == old(tables)[id := tables[id]]
                  && Ran(old(log), log, id, failed)
        invariant Holds(id, input + BlockEach(cidrs[..i], style), output + BlockEach(cidrs[..i], style))
      {
        ghost var rules, added := BlockEach(cidrs[..i], style), BlockRules(Some(cidrs[i]), style);
        BlockNext(cidrs, style, i);
        RulesAssociate(output, rules, added);
        RulesAssociate(input, rules, added);
        ok := AppendToBoth(id, BlockRules(Some(cidrs[i]), style));
        if !ok {
          AppendedMore(input, rules, tables[id].input, added);
          AppendedUpTo(input, tables[id].input, BlockEach(cidrs[..i + 1], style), BlockEach(cidrs, style));
          return;
        }
      }
      assert cidrs[..|cidrs|] == cidrs;
      ok := true;
    }

    method AppendInput(id: string, rules: seq<Rule>, more: seq<Rule>) returns (ok: bool)
      requires Valid() && id in tables && !failed
      modifies `tables, `log, `failed
      ensures Valid() && failed == !ok && id in tables && tables == old(tables)[id := tables[id]]
              && Ran(old(log), log, id, failed)
      ensures Appended(old(tables)[id].input, tables[id].input, rules + more)
      ensures ok ==> Holds(id, old(tables)[id].input + (rules + more), old(tables)[id].output)
    {
      ok := AppendRules(id, InputChain, rules);
      AppendedSome(old(tables)[id].input, tables[id].input, rules, more);
      if !ok { return; }
      ok := AppendRules(id, InputChain, more);
      AppendedMore(old(tables)[id].input, rules, tables[id].input, more);
    }

    method AppendBlockNodes(id: string, net: Network, style: string) returns (ok: bool)
      requires Valid() && id in tables && !failed
      modifies `tables, `log, `failed
      ensures Valid() && failed == !ok && id in tables && tables == old(tables)[id := tables[id]]
              && Ran(old(log), log, id, failed)
      ensures Appended(old(tables)[id].input, tables[id].input, ModeInput(BlockNodes, net, style))
      ensures ok ==> Holds(id, old(tables)[id].input + ModeInput(BlockNodes, net, style),
                           old(tables)[id].output + ModeOutput(BlockNodes, net, style))
    {
      ghost var gateway, range := [AllowRule(Some(Single(net.gateway)))], BlockRules(Some(net.range), style);
      ok := AppendToBoth(id, [AllowRule(Some(Single(net.gateway)))]);  // always accept from the gateway
      AppendedSome(old(tables)[id].input, tables[id].input, gateway, range);
      if !ok { return; }
      ok := AppendToBoth(id, BlockRules(Some(net.range), style));
      AppendedMore(old(tables)[id].input, gateway, tables[id].input, range);
    }

    method AppendBlockClients(id: string, net: Network, style: string) returns (ok: bool)
      requires Valid() && id in tables && !failed
      modifies `tables, `log, `failed
      ensures Valid() && failed == !ok && id in tables && tables == old(tables)[id := tables[id]]
              && Ran(old(log), log, id, failed)
      ensures Appended(old(tables)[id].input, tables[id].input, ModeInput(BlockClients, net, style))
      ensures ok ==> Holds(id, old(tables)[id].input + ModeInput(BlockClients, net, style), old(tables)[id].output)
    {
      ghost var first := BlockRules(Some(Single(net.gateway)), style) + [AllowRule(Some(net.range))];
      ghost var second := [AllowRule(Some(LOOPBACK))] + BlockRules(None, style);
      assert ModeInput(BlockClients, net, style) == first + second;
      ok := AppendInput(id, BlockRules(Some(Single(net.gateway)), style), [AllowRule(Some(net.range))]);
      AppendedSome(old(tables)[id].input, tables[id].input, first, second);
      if !ok { return; }
      ok := AppendInput(id, [AllowRule(Some(LOOPBACK))], BlockRules(None, style));
      AppendedMore(old(tables)[id].input, first, tables[id].input, second);
    }

    /** The rules of the mode itself; an unknown mode is an error. */
    method AppendMode(id: string, mode: Mode, net: Network, style: string) returns (ok: bool)
      requires Valid() && id in tables && !failed
      modifies `tables, `log, `failed
      ensures Valid() && id in tables && tables == old(tables)[id := tables[id]] && Ran(old(log), log, id, failed)
      ensures ok <==> !failed && !mode.UnknownMode?
      ensures Appended(old(tables)[id].input, tables[id].input, ModeInput(mode, net, style))
      ensures !failed ==> Holds(id, old(tables)[id].input + ModeInput(mode, net, style),
                                    old(tables)[id].output + ModeOutput(mode, net, style))
    {
      match mode {
        case BlockNodes => ok := AppendBlockNodes(id, net, style);
        case BlockClients => ok := AppendBlockClients(id, net, style);
        case BlockAll => ok := AppendRules(id, InputChain, BlockRules(None, style));
        case AllowAll => ok := true;
        case UnknownMode => ok := false;
      }
    }

    /** Flushes, then appends the two address lists. Without a flush that worked, the rules are as before. */
    method InstallLists(id: string, policy: Policy, style: string) returns (ok: bool)
      requires Valid() && id in tables && !failed
      modifies `tables, `log, `failed
      ensures Valid() && failed == !ok && id in tables && tables == old(tables)[id := tables[id]]
              && Ran(old(log), log, id, failed)
      ensures if FlushedSince(old(log), log, id) then Appended([], tables[id].input, Lists(policy, style))
              else !ok && SameRules(tables[id], old(tables)[id])
      ensures ok ==> Holds(id, Lists(policy, style), Lists(policy, style))
    {
      ok := ExecIptables(id, Flush);
      if !ok { return; }
      ghost var at := |log| - 1;
      ok := AppendAllowed(id, policy.allowed);
      AppendedSome([], tables[id].input, AllowEach(policy.allowed), BlockEach(policy.blocked, style));
      assert log[at] == Entry(id, Flush, true);
      if !ok { return; }
      assert Holds(id, AllowEach(policy.allowed), AllowEach(policy.allowed));
      ok := AppendBlocked(id, policy.blocked, style);
      assert [] + AllowEach(policy.allowed) == AllowEach(policy.allowed);
      AppendedMore([], AllowEach(policy.allowed), tables[id].input, BlockEach(policy.blocked, style));
      assert log[at] == Entry(id, Flush, true);
    }

    /** Flushes, appends the lists, and then accepts all output. */
    method InstallBase(id: string, policy: Policy, style: string) returns (ok: bool)
      requires Valid() && id in tables && !failed
      modifies `tables, `log, `failed
      ensures Valid() && failed == !ok && id in tables && tables == old(tables)[id := tables[id]]
              && Ran(old(log), log, id, failed)
      ensures if FlushedSince(old(log), log, id) then Appended([], tables[id].input, Lists(policy, style))
              else !ok && SameRules(tables[id], old(tables)[id])
      ensures ok ==> Holds(id, Lists(policy, style), Lists(policy, style) + [AllowRule(None)])
    {
      ok := InstallLists(id, policy, style);
      if !ok { return; }
      ghost var at: nat :| |old(log)| <= at < |log| && log[at] == Entry(id, Flush, true);
      ok := AppendRules(id, OutputChain, [AllowRule(None)]);
      assert log[at] == Entry(id, Flush, true);
    }

    /** Flushes, then appends the whole policy. A failure leaves a beginning of its rules, or if the flush fails, the
        rules as they were. */
    method InstallPolicy(id: string, policy: Policy, net: Network, style: string) returns (ok: bool)
      requires Valid() && id in tables && !failed
      modifies `tables, `log, `failed
      ensures Valid() && id in tables && tables == old(tables)[id := tables[id]] && Ran(old(log), log, id, failed)
      ensures ok <==> !failed && !policy.mode.UnknownMode?
      ensures if FlushedSince(old(log), log, id) then Appended([], tables[id].input, CompileInput(policy, net, style))
              else failed && SameRules(tables[id], old(tables)[id])
      ensures !failed ==> Holds(id, CompileInput(policy, net, style), CompileOutput(policy, net, style))
    {
      ok := InstallBase(id, policy, style);
      if FlushedSince(old(log), log, id) {
        AppendedSome([], tables[id].input, Lists(policy, style), ModeInput(policy.mode, net, style));
      }
      if !ok { return; }
      ghost var at: nat :| |old(log)| <= at < |log| && log[at] == Entry(id, Flush, true);
      assert [] + Lists(policy, style) == Lists(policy, style);
      ok := AppendMode(id, policy.mode, net, style);
      AppendedMore([], Lists(policy, style), tables[id].input, ModeInput(policy.mode, net, style));
      assert log[at] == Entry(id, Flush, true);
    }

    /** Installs the policy and lists the rules; that the listing fails is only logged. */
    method InstallAndList(id: string, policy: Policy, net: Network, style: string) returns (ok: bool)
      requires Valid() && id in tables && !failed
      modifies `tables, `log, `failed
      ensures Valid() && id in tables && tables == old(tables)[id := tables[id]] && Ran(old(log), log, id, failed)
      ensures ok <==> !failed && !policy.mode.UnknownMode?
      ensures ok ==> FlushedSince(old(log), log, id) && !Stops(log)
      ensures if !FlushedSince(old(log), log, id) then failed && SameRules(tables[id], old(tables)[id])
              else if failed then tables[id].input <= CompileInput(policy, net, style)
              else Holds(id, CompileInput(policy, net, style), CompileOutput(policy, net, style))
    {
      ok := InstallPolicy(id, policy, net, style);
      if !ok { return; }
      ghost var at: nat :| |old(log)| <= at < |log| && log[at] == Entry(id, Flush, true);
      var listed := ExecIptables(id, ListRules);
      failed := false;
      assert log[at] == Entry(id, Flush, true);
    }

    /** The result never depends on the rules that were there before, with one exception: allowing everything tries a
        flush and ignores it if it fails, on the guess that iptables was never installed. `calls` is what was run: it
        tells whether the rules were flushed, and whether the installation stopped. */
    method SetTrafficControl(id: string, policy: Policy, style: string) returns (ok: bool, ghost calls: seq<Entry>)
      requires Valid() && id in tables && !failed
      modifies `tables, `log, `failed
      ensures Valid() && id in tables && tables == old(tables)[id := tables[id]]
      ensures log == old(log) + calls && forall e | e in calls :: e.id == id
      ensures SetIn(id, tables[id], old(tables)[id], calls, policy, ipam, style)
      ensures ok <==> !failed && ((policy.mode.AllowAll? && policy.blocked == [])
                                  || (!NoNodeRange(ipam) && !policy.mode.UnknownMode?))
      ensures ok && Flushed(calls, id) ==> forall g, r | IsNodeRange(ipam, g, r) :: LetsIn(tables[id], policy, g, r)
      ensures ok && !(policy.mode.AllowAll? && policy.blocked == []) ==> Flushed(calls, id)
      ensures ok ==> FlushTried(calls, id) && (OnlyFlushes(policy) || Flushed(calls, id)) && !Halted(policy, calls)
      ensures OnlyFlushes(policy) ==> |calls| == 1 && (Flushed(calls, id) || tables == old(tables))
    {
      IdentifyMeans(ipam);
      if policy.mode == AllowAll && |policy.blocked| == 0 {
        var done := Iptables(id, Flush);
        ok, calls := true, [Entry(id, Flush, done)];
        assert calls[0] in calls;
        if done { SetLetsIn(id, tables[id], old(tables)[id], calls, policy, ipam, style); }
        return;
      }
      ok := *;  // inspect the network
      failed := !ok;
      calls := [];
      if !ok { return; }
      var net := IdentifyNetwork(ipam);
      if net.None? { return false, []; }
      ok := InstallAndList(id, policy, net.value, style);
      calls := log[|old(log)|..];
      InstalledIsSet(id, tables[id], old(tables)[id], old(log), log, failed, policy, ipam, style);
      if ok { SetLetsIn(id, tables[id], old(tables)[id], calls, policy, ipam, style); }
    }
  }
}
