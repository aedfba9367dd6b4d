/** The traffic policy of one container, the iptables chains that it is compiled to, and what these mean. */
module Firewall {
  import opened Options
  import opened Topology
  import opened Radix

  // ----- addresses -----

  type PrefixLength = n: nat | n <= 32

  datatype Cidr = Cidr(base: Ipv4, length: PrefixLength)
  {
    /** The address shares the first `length` bits with the base. */
    predicate Contains(a: Ipv4) {
      var size := Pow2(32 - length);
      a / size == base / size
    }
  }

  /** From the base to the next multiple of the block size, if the base is a multiple itself. */
  lemma ContainsIsRange(c: Cidr, a: Ipv4)
    requires c.base % Pow2(32 - c.length) == 0
    ensures c.Contains(a) <==> c.base <= a < c.base + Pow2(32 - c.length)
  {
    var size := Pow2(32 - c.length);
    var q := c.base / size;
    assert q * size == c.base by { WholeQuotient(c.base, size); }
    SameQuotient(a, q, size);
  }

  lemma WholeQuotient(a: nat, size: nat)
    requires size > 0 && a % size == 0
    ensures (a / size) * size == a
  {
  }

  lemma SameQuotient(a: nat, q: nat, size: nat)
    requires size > 0
    ensures a / size == q <==> q * size <= a < q * size + size
  {
    var r := a / size;
    if r < q { assert (r + 1) * size <= q * size; }
    if r > q { assert (q + 1) * size <= r * size; }
  }

  function Single(a: Ipv4): Cidr {
    Cidr(a, 32)
  }

  lemma SingleContainsItself(a: Ipv4, b: Ipv4)
    ensures Single(a).Contains(b) <==> a == b
  {
  }

  /** 127.0.0.0/8 */
  const LOOPBACK: Cidr := Cidr(0x7F00_0000, 8)

  lemma Pow2Of24()
    ensures Pow2(24) == 0x100_0000
  {
    assert Pow2(6) == 64;
    assert Pow2(12) == 4096 by { assert Pow2(11) == 32 * Pow2(6); }
    assert Pow2(17) == 32 * Pow2(12);
    assert Pow2(22) == 32 * Pow2(17);
  }

  // ----- chains -----

  /** An empty response stands for the default answer of a reject rule. */
  datatype Target = Accept | Drop | Reject(response: string)

  /** `source` None matches every source; `tcpOnly` restricts the rule to TCP. */
  datatype Rule = Rule(source: Option<Cidr>, tcpOnly: bool, target: Target)
  {
    predicate Matches(p: Packet) {
      (source.Some? ==> source.value.Contains(p.source)) && (tcpOnly ==> p.tcp)
    }
  }

  datatype Packet = Packet(source: Ipv4, tcp: bool)

  /** First match decides; None if no rule matches. */
  function Decide(chain: seq<Rule>, p: Packet): Option<bool> {
    if chain == [] then None
    else if chain[0].Matches(p) then Some(chain[0].target.Accept?)
    else Decide(chain[1..], p)
  }

  /** The built-in chains accept what no rule decides. */
  predicate Accepted(chain: seq<Rule>, p: Packet) {
    var d := Decide(chain, p);
    d.None? || d.value
  }

  lemma {:induction false} DecideConcat(a: seq<Rule>, b: seq<Rule>, p: Packet)
    ensures Decide(a + b, p) == if Decide(a, p).Some? then Decide(a, p) else Decide(b, p)
  {
    if a == [] {
      assert a + b == b;
    } else {
      assert (a + b)[1..] == a[1..] + b;
      DecideConcat(a[1..], b, p);
    }
  }

  // ----- policies -----

  datatype Mode = BlockNodes | BlockClients | BlockAll | AllowAll | UnknownMode

  datatype Policy = Policy(mode: Mode, blocked: seq<Cidr>, allowed: seq<Cidr>)

  datatype Network = Network(gateway: Ipv4, range: Cidr)

  ghost predicate AnyContains(cidrs: seq<Cidr>, a: Ipv4) {
    exists c :: c in cidrs && c.Contains(a)
  }

  /** What the policy promises about packets from `a`: allow list first, then block list, then the mode. */
  ghost predicate Permits(policy: Policy, net: Network, a: Ipv4) {
    if AnyContains(policy.allowed, a) then true
    else if AnyContains(policy.blocked, a) then false
    else match policy.mode
      case BlockNodes => a == net.gateway || !net.range.Contains(a)
      case BlockClients => a != net.gateway && (net.range.Contains(a) || LOOPBACK.Contains(a))
      case BlockAll => false
      case AllowAll => true
      case UnknownMode => true
  }

  /** Blocking the clients leaves a node open to the node range, the gateway excepted, and to 127.0.0.0 -
      127.255.255.255. */
  lemma BlockClientsPermits(net: Network, a: Ipv4)
    ensures Permits(Policy(BlockClients, [], []), net, a)
       <==> a != net.gateway && (net.range.Contains(a) || 0x7F00_0000 <= a < 0x8000_0000)
  {
    Pow2Of24();
  }

  // ----- compilation -----

  function AllowRule(source: Option<Cidr>): Rule {
    Rule(source, false, Accept)
  }

  /** Blocking takes two rules when TCP gets its own answer. */
  function BlockRules(source: Option<Cidr>, style: string): seq<Rule> {
    if style == "" then [Rule(source, false, Drop)]
    else if style == "tcp-reset" then
      [Rule(source, true, Reject("tcp-reset")), Rule(source, false, Reject(""))]
    else [Rule(source, false, Reject(style))]
  }

  function AllowEach(cidrs: seq<Cidr>): seq<Rule> {
    if cidrs == [] then [] else AllowEach(cidrs[..|cidrs| - 1]) + [AllowRule(Some(cidrs[|cidrs| - 1]))]
  }

  function BlockEach(cidrs: seq<Cidr>, style: string): seq<Rule> {
    if cidrs == [] then [] else BlockEach(cidrs[..|cidrs| - 1], style) + BlockRules(Some(cidrs[|cidrs| - 1]), style)
  }

  function ModeInput(mode: Mode, net: Network, style: string): seq<Rule> {
    match mode
    case BlockNodes => [AllowRule(Some(Single(net.gateway)))] + BlockRules(Some(net.range), style)
    case BlockClients =>
      BlockRules(Some(Single(net.gateway)), style) + [AllowRule(Some(net.range))] + [AllowRule(Some(LOOPBACK))]
      + BlockRules(None, style)
    case BlockAll => BlockRules(None, style)
    case AllowAll => []
    case UnknownMode => []
  }

  function ModeOutput(mode: Mode, net: Network, style: string): seq<Rule> {
    if mode.BlockNodes? then [AllowRule(Some(Single(net.gateway)))] + BlockRules(Some(net.range), style) else []
  }

  function Lists(policy: Policy, style: string): seq<Rule> {
    AllowEach(policy.allowed) + BlockEach(policy.blocked, style)
  }

  function CompileInput(policy: Policy, net: Network, style: string): seq<Rule> {
    Lists(policy, style) + ModeInput(policy.mode, net, style)
  }

  function CompileOutput(policy: Policy, net: Network, style: string): seq<Rule> {
    Lists(policy, style) + [AllowRule(None)] + ModeOutput(policy.mode, net, style)
  }

  lemma LastRuleDecides(r: Rule, p: Packet)
    ensures Decide([r], p) == if r.Matches(p) then Some(r.target.Accept?) else None
  {
  }

  lemma BlockRulesDecide(source: Option<Cidr>, style: string, p: Packet)
    ensures Decide(BlockRules(source, style), p) ==
            if source.Some? && !source.value.Contains(p.source) then None else Some(false)
  {
    var rules := BlockRules(source, style);
    if style == "tcp-reset" {
      assert rules[1..] == [Rule(source, false, Reject(""))];
      LastRuleDecides(rules[1], p);
    } else {
      assert rules == [rules[0]];
      LastRuleDecides(rules[0], p);
    }
  }

  lemma {:induction false} AllowEachDecides(cidrs: seq<Cidr>, p: Packet)
    ensures Decide(AllowEach(cidrs), p) == if AnyContains(cidrs, p.source) then Some(true) else None
  {
    if cidrs != [] {
      var k := |cidrs| - 1;
      AllowEachDecides(cidrs[..k], p);
      DecideConcat(AllowEach(cidrs[..k]), [AllowRule(Some(cidrs[k]))], p);
      assert cidrs == cidrs[..k] + [cidrs[k]];
    }
  }

  lemma {:induction false} BlockEachDecides(cidrs: seq<Cidr>, style: string, p: Packet)
    ensures Decide(BlockEach(cidrs, style), p) == if AnyContains(cidrs, p.source) then Some(false) else None
  {
    if cidrs != [] {
      var k := |cidrs| - 1;
      BlockEachDecides(cidrs[..k], style, p);
      BlockRulesDecide(Some(cidrs[k]), style, p);
      DecideConcat(BlockEach(cidrs[..k], style), BlockRules(Some(cidrs[k]), style), p);
      assert cidrs == cidrs[..k] + [cidrs[k]];
    }
  }

  lemma ModeInputDecides(mode: Mode, net: Network, style: string, p: Packet)
    ensures Accepted(ModeInput(mode, net, style), p) <==> Permits(Policy(mode, [], []), net, p.source)
  {
    var gateway := Single(net.gateway);
    SingleContainsItself(net.gateway, p.source);
    match mode {
      case BlockNodes =>
        BlockRulesDecide(Some(net.range), style, p);
        DecideConcat([AllowRule(Some(gateway))], BlockRules(Some(net.range), style), p);
      case BlockClients =>
        var a, b := BlockRules(Some(gateway), style), BlockRules(None, style);
        BlockRulesDecide(Some(gateway), style, p);
        BlockRulesDecide(None, style, p);
        DecideConcat(a, [AllowRule(Some(net.range))], p);
        DecideConcat(a + [AllowRule(Some(net.range))], [AllowRule(Some(LOOPBACK))], p);
        DecideConcat(a + [AllowRule(Some(net.range))] + [AllowRule(Some(LOOPBACK))], b, p);
      case BlockAll =>
        BlockRulesDecide(None, style, p);
      case AllowAll =>
      case UnknownMode =>
    }
  }

  /** The compiled INPUT chain means the policy: for every mode, every list, every reject style and every packet. */
  lemma CompileInputMeansPolicy(policy: Policy, net: Network, style: string, p: Packet)
    ensures Accepted(CompileInput(policy, net, style), p) <==> Permits(policy, net, p.source)
  {
    AllowEachDecides(policy.allowed, p);
    BlockEachDecides(policy.blocked, style, p);
    ModeInputDecides(policy.mode, net, style, p);
    DecideConcat(AllowEach(policy.allowed), BlockEach(policy.blocked, style), p);
    DecideConcat(AllowEach(policy.allowed) + BlockEach(policy.blocked, style), ModeInput(policy.mode, net, style), p);
  }

  /** A beginning of the chain rejects nothing that the policy permits; none of it rejects nothing. */
  lemma BeginningPermits(policy: Policy, net: Network, style: string, chain: seq<Rule>, p: Packet)
    requires chain <= CompileInput(policy, net, style)
    ensures Permits(policy, net, p.source) ==> Accepted(chain, p)
    ensures chain == [] ==> Accepted(chain, p)
  {
    var all := CompileInput(policy, net, style);
    var rest := all[|chain|..];
    assert all == chain + rest;
    DecideConcat(chain, rest, p);
    CompileInputMeansPolicy(policy, net, style, p);
  }

  // ----- how blocked packets are answered -----

  /** What the first matching rule does. */
  ghost function Answer(chain: seq<Rule>, p: Packet): Option<Target> {
    if chain == [] then None
    else if chain[0].Matches(p) then Some(chain[0].target)
    else Answer(chain[1..], p)
  }

  lemma {:induction false} AnswerDecides(chain: seq<Rule>, p: Packet)
    ensures Decide(chain, p) == if Answer(chain, p).None? then None else Some(Answer(chain, p).value.Accept?)
  {
    if chain != [] { AnswerDecides(chain[1..], p); }
  }

  lemma OneAnswers(r: Rule, p: Packet)
    ensures Answer([r], p) == if r.Matches(p) then Some(r.target) else None
  {
  }

  lemma {:induction false} AnswerConcat(a: seq<Rule>, b: seq<Rule>, p: Packet)
    ensures Answer(a + b, p) == if Answer(a, p).Some? then Answer(a, p) else Answer(b, p)
  {
    if a == [] {
      assert a + b == b;
    } else {
      assert (a + b)[1..] == a[1..] + b;
      AnswerConcat(a[1..], b, p);
    }
  }

  /** The chain accepts the packet, or leaves it to the next chain, or answers it as asked: without a style it is
      dropped; "tcp-reset" resets TCP and rejects everything else by default; any other style is the response. */
  ghost predicate AnswersInStyle(chain: seq<Rule>, style: string, p: Packet) {
    match Answer(chain, p)
    case None => true
    case Some(Accept) => true
    case Some(Drop) => style == ""
    case Some(Reject(response)) => style != "" && response == if style == "tcp-reset" && !p.tcp then "" else style
  }

  lemma StyleConcat(a: seq<Rule>, b: seq<Rule>, style: string, p: Packet)
    requires AnswersInStyle(a, style, p) && AnswersInStyle(b, style, p)
    ensures AnswersInStyle(a + b, style, p)
  {
    AnswerConcat(a, b, p);
  }

  lemma BlockRulesInStyle(source: Option<Cidr>, style: string, p: Packet)
    ensures AnswersInStyle(BlockRules(source, style), style, p)
  {
    if style == "tcp-reset" {
      var tcp, rest := Rule(source, true, Reject("tcp-reset")), Rule(source, false, Reject(""));
      assert BlockRules(source, style) == [tcp] + [rest];
      OneAnswers(tcp, p);
      OneAnswers(rest, p);
      AnswerConcat([tcp], [rest], p);
    } else {
      OneAnswers(BlockRules(source, style)[0], p);
    }
  }

  lemma {:induction false} ListsInStyle(cidrs: seq<Cidr>, style: string, p: Packet)
    ensures AnswersInStyle(AllowEach(cidrs), style, p) && AnswersInStyle(BlockEach(cidrs, style), style, p)
  {
    if cidrs != [] {
      var k := |cidrs| - 1;
      ListsInStyle(cidrs[..k], style, p);
      AllowInStyle(Some(cidrs[k]), style, p);
      BlockRulesInStyle(Some(cidrs[k]), style, p);
      StyleConcat(AllowEach(cidrs[..k]), [AllowRule(Some(cidrs[k]))], style, p);
      StyleConcat(BlockEach(cidrs[..k], style), BlockRules(Some(cidrs[k]), style), style, p);
    }
  }

  lemma AllowInStyle(source: Option<Cidr>, style: string, p: Packet)
    ensures AnswersInStyle([AllowRule(source)], style, p)
  {
    OneAnswers(AllowRule(source), p);
  }

  lemma ModeInStyle(mode: Mode, net: Network, style: string, p: Packet)
    ensures AnswersInStyle(ModeInput(mode, net, style), style, p)
  {
    var gateway := Some(Single(net.gateway));
    match mode {
      case BlockNodes =>
        AllowInStyle(gateway, style, p);
        BlockRulesInStyle(Some(net.range), style, p);
        StyleConcat([AllowRule(gateway)], BlockRules(Some(net.range), style), style, p);
      case BlockClients =>
        var a, b, c := BlockRules(gateway, style), [AllowRule(Some(net.range))], [AllowRule(Some(LOOPBACK))];
        BlockRulesInStyle(gateway, style, p);
        AllowInStyle(Some(net.range), style, p);
        AllowInStyle(Some(LOOPBACK), style, p);
        BlockRulesInStyle(None, style, p);
        StyleConcat(a, b, style, p);
        StyleConcat(a + b, c, style, p);
        StyleConcat(a + b + c, BlockRules(None, style), style, p);
      case BlockAll =>
        BlockRulesInStyle(None, style, p);
      case AllowAll =>
      case UnknownMode =>
    }
  }

  /** Every packet that the policy blocks is answered in the style asked for. */
  lemma BlockedAreAnswered(policy: Policy, net: Network, style: string, p: Packet)
    requires !Permits(policy, net, p.source)
    ensures Answer(CompileInput(policy, net, style), p)
            == Some(if style == "" then Drop
                    else if style == "tcp-reset" then Reject(if p.tcp then "tcp-reset" else "")
                    else Reject(style))
  {
    var chain := CompileInput(policy, net, style);
    CompileInputMeansPolicy(policy, net, style, p);
    AnswerDecides(chain, p);
    ListsInStyle(policy.allowed, style, p);
    ListsInStyle(policy.blocked, style, p);
    ModeInStyle(policy.mode, net, style, p);
    StyleConcat(AllowEach(policy.allowed), BlockEach(policy.blocked, style), style, p);
    StyleConcat(Lists(policy, style), ModeInput(policy.mode, net, style), style, p);
  }

  /** How a blocked packet is answered never changes which packets are blocked. */
  lemma StylesBlockTheSame(policy: Policy, net: Network, style: string, other: string, p: Packet)
    ensures Accepted(CompileInput(policy, net, style), p) == Accepted(CompileInput(policy, net, other), p)
  {
    CompileInputMeansPolicy(policy, net, style, p);
    CompileInputMeansPolicy(policy, net, other, p);
  }

  /** The OUTPUT rules of a mode are never reached: the accept-all rule stands before them. */
  lemma OutputIgnoresMode(policy: Policy, net: Network, style: string, p: Packet)
    ensures Accepted(CompileOutput(policy, net, style), p)
       <==> AnyContains(policy.allowed, p.source) || !AnyContains(policy.blocked, p.source)
  {
    AllowEachDecides(policy.allowed, p);
    BlockEachDecides(policy.blocked, style, p);
    var lists := AllowEach(policy.allowed) + BlockEach(policy.blocked, style);
    DecideConcat(AllowEach(policy.allowed), BlockEach(policy.blocked, style), p);
    DecideConcat(lists, [AllowRule(None)], p);
    DecideConcat(lists + [AllowRule(None)], ModeOutput(policy.mode, net, style), p);
  }
}
