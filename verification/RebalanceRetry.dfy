/** Rebalancing with retries until a validation pass finds the cluster balanced or the deadline has passed. */
module RebalanceRetry {
  import opened Options

  datatype LocalInfo = LocalInfo(otp: string, status: string)

  datatype ClusterView = ClusterView(orchestrator: string, balanced: bool)

  /** What one node answered; an answer that was not asked for or did not arrive is None. */
  datatype Reply = Reply(address: string, local: Option<LocalInfo>, cluster: Option<ClusterView>)

  /** A rebalance that was issued: when, through which node, the names said to be members, and the names to eject. */
  datatype Attempt = Attempt(time: nat, address: string, known: seq<string>, ejected: seq<string>)

  /** What a run does and sees. A question that fails is answered by None; the address is that of the node asked. */
  datatype Event =
    | AskedLocal(address: string, local: Option<LocalInfo>)
    | AskedView(address: string, view: Option<ClusterView>)
    | Listed(address: string, otps: seq<string>)
    | Started(attempt: Attempt)
    | TasksEnded(address: string)

  datatype Outcome = Balanced | Exhausted | NoControlNode | StartFailed | WaitFailed | ListFailed | Cancelled
  {
    /** Ended by a failed operation rather than by a decision. */
    predicate IsInterruption() {
      StartFailed? || WaitFailed? || ListFailed? || Cancelled?
    }
  }

  const SECOND := 1000
  const STABILITY := 15 * SECOND
  const MAX_PASSES := 15
  const RETRY_WINDOW := 15 * 60 * SECOND

  // ----- subsequences -----

  ghost predicate Subsequence(a: seq<string>, b: seq<string>) {
    a == [] || (b != [] && (|| Subsequence(a, b[..|b| - 1])
                            || (a[|a| - 1] == b[|b| - 1] && Subsequence(a[..|a| - 1], b[..|b| - 1]))))
  }

  lemma {:induction false} SubsequenceReflexive(a: seq<string>)
    ensures Subsequence(a, a)
  {
    if a != [] { SubsequenceReflexive(a[..|a| - 1]); }
  }

  lemma {:induction false} SubsequenceTransitive(a: seq<string>, b: seq<string>, c: seq<string>)
    requires Subsequence(a, b) && Subsequence(b, c)
    ensures Subsequence(a, c)
    decreases |b| + |c|
  {
    if a != [] && b != [] {
      var k, m := |b| - 1, |c| - 1;
      if Subsequence(b, c[..m]) {
        SubsequenceTransitive(a, b, c[..m]);
      } else if Subsequence(a, b[..k]) {
        SubsequenceTransitive(a, b[..k], c[..m]);
      } else {
        SubsequenceTransitive(a[..|a| - 1], b[..k], c[..m]);
      }
    }
  }

  lemma {:induction false} SubsequenceMembers(a: seq<string>, b: seq<string>)
    requires Subsequence(a, b)
    ensures forall x | x in a :: x in b
    decreases |b|
  {
    if a != [] {
      var k := |b| - 1;
      if Subsequence(a, b[..k]) {
        SubsequenceMembers(a, b[..k]);
      } else {
        SubsequenceMembers(a[..|a| - 1], b[..k]);
        assert a == a[..|a| - 1] + [a[|a| - 1]];
      }
    }
  }

  lemma SubsequenceExtend(a: seq<string>, b: seq<string>, x: string)
    requires Subsequence(a, b)
    ensures Subsequence(a, b + [x]) && Subsequence(a + [x], b + [x])
  {
    assert (a + [x])[..|a|] == a && (b + [x])[..|b|] == b;
  }

  /** The names that are still listed, in order. */
  function Present(ejected: seq<string>, active: seq<string>): seq<string> {
    if ejected == [] then []
    else
      var k := |ejected| - 1;
      Present(ejected[..k], active) + if ejected[k] in active then [ejected[k]] else []
  }

  lemma {:induction false} PresentAreListed(ejected: seq<string>, active: seq<string>)
    ensures Subsequence(Present(ejected, active), ejected)
    ensures forall otp :: otp in Present(ejected, active) <==> otp in ejected && otp in active
  {
    if ejected != [] {
      var k := |ejected| - 1;
      var front := Present(ejected[..k], active);
      PresentAreListed(ejected[..k], active);
      SubsequenceExtend(front, ejected[..k], ejected[k]);
      assert ejected == ejected[..k] + [ejected[k]];
      assert Present(ejected, active) == if ejected[k] in active then front + [ejected[k]] else front;
    }
  }

  /** A name that is still listed stays as often as it was there. */
  lemma {:induction false} PresentTimes(ejected: seq<string>, active: seq<string>, otp: string)
    ensures multiset(Present(ejected, active))[otp] == if otp in active then multiset(ejected)[otp] else 0
  {
    if ejected != [] {
      var k := |ejected| - 1;
      PresentTimes(ejected[..k], active, otp);
      assert ejected == ejected[..k] + [ejected[k]];
    }
  }

  // ----- what a validation pass means -----

  predicate Counted(r: Reply) {
    r.local.Some? && r.cluster.Some? && r.local.value.otp != ""
  }

  /** The node names itself as the orchestrator. */
  predicate IsOrchestrator(r: Reply) {
    Counted(r) && r.cluster.value.orchestrator == r.local.value.otp
  }

  predicate Healthy(r: Reply, ejected: seq<string>) {
    Counted(r) ==>
      && (IsOrchestrator(r) ==> r.cluster.value.balanced)
      && (r.local.value.status == "" || r.local.value.status == "healthy")
      && r.local.value.otp !in ejected
  }

  function Orchestrators(pass: seq<Reply>): nat {
    if pass == [] then 0
    else Orchestrators(pass[..|pass| - 1]) + if IsOrchestrator(pass[|pass| - 1]) then 1 else 0
  }

  /** Exactly one self-named orchestrator, which reports balance, and no counted node unhealthy or still to be
      ejected. */
  ghost predicate ClusterBalanced(pass: seq<Reply>, ejected: seq<string>) {
    (forall r | r in pass :: Healthy(r, ejected)) && Orchestrators(pass) == 1
  }

  /** With one orchestrator in the pass there is one reply that says so. */
  lemma {:induction false} SomeOrchestrator(pass: seq<Reply>)
    ensures Orchestrators(pass) >= 1 <==> exists r :: r in pass && IsOrchestrator(r)
  {
    if pass != [] {
      var k := |pass| - 1;
      SomeOrchestrator(pass[..k]);
      assert pass == pass[..k] + [pass[k]];
    }
  }

  /** The node answered, is part of a cluster and stays. */
  predicate Usable(r: Reply, ejected: seq<string>) {
    r.local.Some? && r.local.value.otp != "" && r.local.value.otp !in ejected
  }

  // ----- time -----

  /** How many rebalances can be started from `now` on when each takes at least the stability window. */
  function MaxAttempts(now: nat, deadline: nat): nat {
    if now > deadline then 0 else (deadline - now) / STABILITY + 1
  }

  lemma OneMoreAttempt(now: nat, later: nat, deadline: nat)
    requires now <= deadline && later >= now + STABILITY
    ensures MaxAttempts(later, deadline) + 1 <= MaxAttempts(now, deadline)
  {
  }

  /** The cluster and the clock. Every operation takes an arbitrary amount of time and returns an arbitrary answer.
      `failed` is set by the failures that end a run. */
  class Environment {
    var now: nat
    ghost var log: seq<Event>
    ghost var failed: bool
    /** The completed pauses. */
    ghost var slept: nat

    method Clock() returns (t: nat)
      modifies `now
      ensures t == now && now >= old(now)
    {
      var elapsed: int := *;
      if elapsed > 0 { now := now + elapsed; }
      t := now;
    }

    /** Waits for at least this long, unless the context ends first. */
    method Sleep(duration: nat) returns (cancelled: bool)
      modifies `now, `failed, `slept
      ensures now >= old(now) && (!cancelled ==> now >= old(now) + duration)
      ensures failed == (old(failed) || cancelled) && slept == old(slept) + if cancelled then 0 else duration
    {
      cancelled := *;
      failed := failed || cancelled;
      var t := Clock();
      if !cancelled { now, slept := now + duration, slept + duration; }
    }

    method GetLocalInfo(address: string) returns (info: Option<LocalInfo>)
      modifies `now, `log
      ensures now >= old(now) && log == old(log) + [AskedLocal(address, info)]
    {
      info := *;
      var t := Clock();
      log := log + [AskedLocal(address, info)];
    }

    method GetClusterView(address: string) returns (view: Option<ClusterView>)
      modifies `now, `log
      ensures now >= old(now) && log == old(log) + [AskedView(address, view)]
    {
      view := *;
      var t := Clock();
      log := log + [AskedView(address, view)];
    }

    method ListNodeOtps(address: string) returns (otps: Option<seq<string>>)
      modifies `now, `log, `failed
      ensures now >= old(now) && failed == (old(failed) || otps.None?)
      ensures log == old(log) + if otps.Some? then [Listed(address, otps.value)] else []
    {
      otps := *;
      failed := failed || otps.None?;
      var t := Clock();
      log := log + if otps.Some? then [Listed(address, otps.value)] else [];
    }

    /** A rebalance counts as issued even if the request fails. */
    method BeginRebalance(address: string, known: seq<string>, ejected: seq<string>)
      returns (ok: bool, ghost attempt: Attempt)
      modifies `now, `log, `failed
      ensures failed == (old(failed) || !ok)
      ensures attempt == Attempt(attempt.time, address, known, ejected) && old(now) <= attempt.time <= now
      ensures log == old(log) + [Started(attempt)]
    {
      ok := *;
      failed := failed || !ok;
      var t := Clock();
      attempt := Attempt(t, address, known, ejected);
      log := log + [Started(attempt)];
    }

    method WaitForNoRunningTasks(address: string) returns (ok: bool)
      modifies `now, `log, `failed
      ensures now >= old(now) && failed == (old(failed) || !ok)
      ensures log == old(log) + if ok then [TasksEnded(address)] else []
    {
      ok := *;
      failed := failed || !ok;
      var t := Clock();
      log := log + if ok then [TasksEnded(address)] else [];
    }
  }

  // ----- one validation pass -----

  function ReplyEvents(r: Reply): seq<Event> {
    [AskedLocal(r.address, r.local)] + if r.local.Some? then [AskedView(r.address, r.cluster)] else []
  }

  function PassEvents(pass: seq<Reply>): seq<Event> {
    if pass == [] then [] else PassEvents(pass[..|pass| - 1]) + ReplyEvents(pass[|pass| - 1])
  }

  lemma PassEventsExtend(log: seq<Event>, pass: seq<Reply>, reply: Reply)
    ensures log + PassEvents(pass) + ReplyEvents(reply) == log + PassEvents(pass + [reply])
  {
    assert (pass + [reply])[..|pass|] == pass;
  }

  /** Asks one node about itself and, if it answers, about the cluster. */
  method Inspect(env: Environment, address: string) returns (local: Option<LocalInfo>, view: Option<ClusterView>)
    modifies env`now, env`log
    ensures env.now >= old(env.now)
    ensures env.log == old(env.log) + ReplyEvents(Reply(address, local, view))
    ensures local.None? ==> view.None?
  {
    local := env.GetLocalInfo(address);
    view := None;
    if local.Some? { view := env.GetClusterView(address); }
  }

  /** A validation pass that looked at the addresses in order, and whether it found the cluster balanced. */
  ghost predicate IsPass(pass: seq<Reply>, addresses: seq<string>, ejected: seq<string>, balanced: bool) {
    && |pass| <= |addresses| && (forall i | 0 <= i < |pass| :: pass[i].address == addresses[i])
    && (balanced <==> |pass| == |addresses| && ClusterBalanced(pass, ejected))
    && (|pass| < |addresses| ==> exists r :: r in pass && !Healthy(r, ejected))
  }

  /** What a pass decides, in terms of the answers. A node that does not answer both questions, or is in no cluster,
      does not count. A complete pass succeeds exactly if every node that counts is healthy and not to be ejected, an
      orchestrator reports balance, and exactly one node names itself the orchestrator. */
  ghost predicate Verdict(pass: seq<Reply>, addresses: seq<string>, ejected: seq<string>, balanced: bool) {
    balanced <==>
      && |pass| == |addresses|
      && (forall r | r in pass && r.local.Some? && r.cluster.Some? && r.local.value.otp != "" ::
            && (r.local.value.status == "" || r.local.value.status == "healthy")
            && r.local.value.otp !in ejected
            && (r.cluster.value.orchestrator == r.local.value.otp ==> r.cluster.value.balanced))
      && exists at :: 0 <= at < |pass| && NamedBy(pass, at)
  }

  /** This answer, and no other, names the node itself as the orchestrator. */
  ghost predicate NamedBy(pass: seq<Reply>, at: int) {
    forall i | 0 <= i < |pass| ::
      i == at <==> && pass[i].local.Some? && pass[i].cluster.Some? && pass[i].local.value.otp != ""
                   && pass[i].cluster.value.orchestrator == pass[i].local.value.otp
  }

  lemma {:induction false} NamedOnce(pass: seq<Reply>, at: nat)
    requires at < |pass| && NamedBy(pass, at)
    ensures Orchestrators(pass) == 1
  {
    var k := |pass| - 1;
    assert IsOrchestrator(pass[k]) <==> at == k;
    if at == k {
      SomeOrchestrator(pass[..k]);
      forall i | 0 <= i < k ensures !IsOrchestrator(pass[..k][i]) { assert pass[..k][i] == pass[i]; }
    } else {
      forall i | 0 <= i < k ensures pass[..k][i] == pass[i] {}
      NamedOnce(pass[..k], at);
    }
  }

  lemma PassVerdict(pass: seq<Reply>, addresses: seq<string>, ejected: seq<string>, balanced: bool)
    requires IsPass(pass, addresses, ejected, balanced)
    ensures Verdict(pass, addresses, ejected, balanced)
  {
    if Orchestrators(pass) == 1 {
      var at := TheOrchestrator(pass);
      assert NamedBy(pass, at);
    }
    if at: nat :| at < |pass| && NamedBy(pass, at) { NamedOnce(pass, at); }
    if forall r | r in pass :: Healthy(r, ejected) {
      forall r | r in pass && r.local.Some? && r.cluster.Some? && r.local.value.otp != ""
        ensures r.local.value.status == "" || r.local.value.status == "healthy"
      {
        assert Healthy(r, ejected);
      }
    }
  }

  /** A pass that stops early stops at an answer that spoils it. */
  lemma EarlyPass(pass: seq<Reply>, addresses: seq<string>, ejected: seq<string>)
    requires IsPass(pass, addresses, ejected, false) && |pass| < |addresses|
    ensures exists r :: && r in pass && r.local.Some? && r.cluster.Some? && r.local.value.otp != ""
                        && (|| (r.local.value.status != "" && r.local.value.status != "healthy")
                            || r.local.value.otp in ejected
                            || (r.cluster.value.orchestrator == r.local.value.otp && !r.cluster.value.balanced))
  {
    var r :| r in pass && !Healthy(r, ejected);
  }

  /** Asks one node, and tells whether it counts as an orchestrator and whether its answer spoils the pass. */
  method InspectReply(env: Environment, address: string, ejected: seq<string>)
    returns (counts: bool, spoils: bool, ghost reply: Reply)
    modifies env`now, env`log
    ensures env.now >= old(env.now)
    ensures env.log == old(env.log) + ReplyEvents(reply) && reply.address == address
    ensures counts <==> IsOrchestrator(reply)
    ensures spoils <==> !Healthy(reply, ejected)
  {
    var local, view := Inspect(env, address);
    reply := Reply(address, local, view);
    counts, spoils := false, false;
    if local.Some? && view.Some? && local.value.otp != "" {
      counts := view.value.orchestrator == local.value.otp;
      spoils := (counts && !view.value.balanced)
                || (local.value.status != "" && local.value.status != "healthy")
                || local.value.otp in ejected;
    }
  }

  /** One validation pass. It stops at the first reply that spoils it. */
  method CheckClusterIsBalanced(env: Environment, addresses: seq<string>, ejected: seq<string>)
    returns (balanced: bool, ghost pass: seq<Reply>)
    modifies env`now, env`log
    ensures env.now >= old(env.now)
    ensures env.log == old(env.log) + PassEvents(pass)
    ensures IsPass(pass, addresses, ejected, balanced) && Verdict(pass, addresses, ejected, balanced)
  {
    pass := [];
    var orchestrators := 0;
    for i := 0 to |addresses|
      invariant env.now >= old(env.now)
      invariant env.log == old(env.log) + PassEvents(pass) && |pass| == i
      invariant forall j | 0 <= j < i :: pass[j].address == addresses[j]
      invariant forall r | r in pass :: Healthy(r, ejected)
      invariant orchestrators == Orchestrators(pass)
    {
      var counts, spoils;
      ghost var reply;
      counts, spoils, reply := InspectReply(env, addresses[i], ejected);
      assert (pass + [reply])[..i] == pass;
      PassEventsExtend(old(env.log), pass, reply);
      pass := pass + [reply];
      if counts { orchestrators := orchestrators + 1; }
      if spoils {
        assert reply in pass;
        PassVerdict(pass, addresses, ejected, false);
        return false, pass;
      }
    }
    balanced := orchestrators == 1;
    PassVerdict(pass, addresses, ejected, balanced);
  }

  // ----- the control node -----

  function LocalEvents(seen: seq<Reply>): seq<Event> {
    if seen == [] then []
    else
      var last := seen[|seen| - 1];
      LocalEvents(seen[..|seen| - 1]) + [AskedLocal(last.address, last.local)]
  }

  lemma LocalEventsExtend(log: seq<Event>, seen: seq<Reply>, reply: Reply)
    ensures log + LocalEvents(seen) + [AskedLocal(reply.address, reply.local)] == log + LocalEvents(seen + [reply])
  {
    assert (seen + [reply])[..|seen|] == seen;
  }

  /** Nobody who answered can drive the rebalance. */
  ghost predicate NoneUsable(seen: seq<Reply>, addresses: seq<string>, ejected: seq<string>) {
    |seen| == |addresses| && forall i | 0 <= i < |seen| :: seen[i].address == addresses[i] && !Usable(seen[i], ejected)
  }

  /** No control node comes of these answers: nobody is usable, or the first usable node has an empty address. */
  ghost predicate NoControl(seen: seq<Reply>, addresses: seq<string>, ejected: seq<string>) {
    || NoneUsable(seen, addresses, ejected)
    || (0 < |seen| <= |addresses| && FirstUsable(seen, addresses, ejected) && seen[|seen| - 1].address == "")
  }

  /** The last answer is the first usable one. */
  ghost predicate FirstUsable(seen: seq<Reply>, addresses: seq<string>, ejected: seq<string>)
    requires 0 < |seen| <= |addresses|
  {
    var k := |seen| - 1;
    NoneUsable(seen[..k], addresses[..k], ejected) && seen[k].address == addresses[k] && Usable(seen[k], ejected)
  }

  /** The last answer is that of the control node. An empty address counts as not found. */
  ghost predicate Controlled(seen: seq<Reply>, addresses: seq<string>, ejected: seq<string>) {
    0 < |seen| <= |addresses| && FirstUsable(seen, addresses, ejected) && seen[|seen| - 1].address != ""
  }

  lemma SearchNext(seen: seq<Reply>, reply: Reply, addresses: seq<string>, i: nat, ejected: seq<string>)
    requires i < |addresses| && NoneUsable(seen, addresses[..i], ejected) && reply.address == addresses[i]
    ensures Usable(reply, ejected) ==> FirstUsable(seen + [reply], addresses, ejected)
    ensures !Usable(reply, ejected) ==> NoneUsable(seen + [reply], addresses[..i + 1], ejected)
  {
    assert (seen + [reply])[..i] == seen;
  }

  /** This node cannot drive the rebalance: it did not answer, is in no cluster, or is to be ejected. */
  ghost predicate Unfit(r: Reply, ejected: seq<string>) {
    r.local.None? || r.local.value.otp == "" || r.local.value.otp in ejected
  }

  /** How the search for a control node ended: at the first node that is fit, or without one. */
  lemma SearchMeans(seen: seq<Reply>, addresses: seq<string>, ejected: seq<string>)
    ensures Controlled(seen, addresses, ejected) ==>
              && 0 < |seen| <= |addresses| && !Unfit(seen[|seen| - 1], ejected) && seen[|seen| - 1].address != ""
              && (forall i | 0 <= i < |seen| - 1 :: Unfit(seen[i], ejected))
              && forall i | 0 <= i < |seen| :: seen[i].address == addresses[i]
    ensures NoControl(seen, addresses, ejected) ==>
              && |seen| <= |addresses| && (forall i | 0 <= i < |seen| :: seen[i].address == addresses[i])
              && (forall i | 0 <= i < |seen| - 1 :: Unfit(seen[i], ejected))
              && (seen == [] || Unfit(seen[|seen| - 1], ejected) || seen[|seen| - 1].address == "")
              && (|seen| < |addresses| ==> seen != [] && seen[|seen| - 1].address == "")
  {
    if |seen| > 0 && |seen| <= |addresses| && FirstUsable(seen, addresses, ejected) {
      forall i | 0 <= i < |seen| - 1 ensures Unfit(seen[i], ejected) && seen[i].address == addresses[i] {
        assert seen[..|seen| - 1][i] == seen[i];
      }
    }
  }

  /** The first node that can drive the rebalance, and what was asked to find it. */
  method SelectControlNode(env: Environment, addresses: seq<string>, ejected: seq<string>)
    returns (found: bool, address: string, ghost seen: seq<Reply>)
    modifies env`now, env`log
    ensures env.now >= old(env.now)
    ensures env.log == old(env.log) + LocalEvents(seen)
    ensures found ==> Controlled(seen, addresses, ejected) && address == seen[|seen| - 1].address
    ensures !found ==> NoControl(seen, addresses, ejected)
  {
    seen, address := [], "";
    for i := 0 to |addresses|
      invariant env.now >= old(env.now)
      invariant env.log == old(env.log) + LocalEvents(seen)
      invariant NoneUsable(seen, addresses[..i], ejected)
    {
      var local := env.GetLocalInfo(addresses[i]);
      ghost var reply := Reply(addresses[i], local, None);
      SearchNext(seen, reply, addresses, i, ejected);
      LocalEventsExtend(old(env.log), seen, reply);
      seen := seen + [reply];
      if local.Some? && local.value.otp != "" && local.value.otp !in ejected {
        return addresses[i] != "", addresses[i], seen;
      }
    }
    assert addresses[..|addresses|] == addresses;
    found := false;
  }

  // ----- validation -----

  function PassesEvents(passes: seq<seq<Reply>>): seq<Event> {
    if passes == [] then [] else PassesEvents(passes[..|passes| - 1]) + PassEvents(passes[|passes| - 1])
  }

  lemma PassesEventsExtend(log: seq<Event>, passes: seq<seq<Reply>>, pass: seq<Reply>)
    ensures log + PassesEvents(passes) + PassEvents(pass) == log + PassesEvents(passes + [pass])
  {
    assert (passes + [pass])[..|passes|] == passes;
  }

  /** None of the passes found the cluster balanced. */
  ghost predicate Rejected(passes: seq<seq<Reply>>, addresses: seq<string>, ejected: seq<string>) {
    forall pass | pass in passes :: IsPass(pass, addresses, ejected, false)
  }

  /** The last pass, and no other, found the cluster balanced. */
  ghost predicate Accepted(passes: seq<seq<Reply>>, addresses: seq<string>, ejected: seq<string>) {
    && passes != [] && Rejected(passes[..|passes| - 1], addresses, ejected)
    && IsPass(passes[|passes| - 1], addresses, ejected, true)
  }

  datatype PollResult = FoundBalanced | TimedOut | PollCancelled

  /** One more validation pass, and the pause after it if it fails. `began` is the log at the start. */
  method PassAndPause(env: Environment, addresses: seq<string>, ejected: seq<string>, ghost earlier: seq<seq<Reply>>,
                      ghost began: seq<Event>)
    returns (balanced: bool, cancelled: bool, ghost passes: seq<seq<Reply>>)
    requires !env.failed && env.log == began + PassesEvents(earlier) && Rejected(earlier, addresses, ejected)
    modifies env`now, env`log, env`failed, env`slept
    ensures |passes| == |earlier| + 1 && env.log == began + PassesEvents(passes) && env.failed == cancelled
    ensures balanced ==> !cancelled && Accepted(passes, addresses, ejected)
    ensures !balanced ==> Rejected(passes, addresses, ejected)
    ensures env.slept == old(env.slept) + if balanced || cancelled then 0 else 1000
    ensures env.now >= old(env.now) + if balanced || cancelled then 0 else 1000
  {
    cancelled := false;
    ghost var pass;
    balanced, pass := CheckClusterIsBalanced(env, addresses, ejected);
    PassesEventsExtend(began, earlier, pass);
    passes := earlier + [pass];
    assert passes[..|earlier|] == earlier;
    if balanced { return; }
    cancelled := env.Sleep(SECOND);
  }

  /** Repeats validation passes until one succeeds or the stability window is over, with a pause after each. */
  method AwaitBalance(env: Environment, addresses: seq<string>, ejected: seq<string>)
    returns (r: PollResult, ghost passes: seq<seq<Reply>>)
    requires !env.failed
    modifies env`now, env`log, env`failed, env`slept
    ensures env.now >= old(env.now) && (env.failed <==> r.PollCancelled?)
    ensures env.slept == old(env.slept) + 1000 * if r.TimedOut? then |passes| else |passes| - 1
    ensures env.log == old(env.log) + PassesEvents(passes) && |passes| <= 15
    ensures r.TimedOut? ==> env.now >= old(env.now) + 15 * 1000
    ensures r.FoundBalanced? ==> Accepted(passes, addresses, ejected)
    ensures !r.FoundBalanced? ==> Rejected(passes, addresses, ejected)
  {
    passes := [];
    var start := env.Clock();
    while true
      invariant !env.failed && start >= old(env.now) && env.now >= start + SECOND * |passes|
      invariant env.log == old(env.log) + PassesEvents(passes) && env.slept == old(env.slept) + 1000 * |passes|
      invariant |passes| <= MAX_PASSES && Rejected(passes, addresses, ejected)
      decreases start + STABILITY - env.now
    {
      var t := env.Clock();
      if t - start >= STABILITY { return TimedOut, passes; }
      var balanced, cancelled;
      balanced, cancelled, passes := PassAndPause(env, addresses, ejected, passes, old(env.log));
      if balanced { return FoundBalanced, passes; }
      if cancelled { return PollCancelled, passes; }
    }
  }

  /** Drops the names that the cluster no longer lists. */
  method StillPresent(ejected: seq<string>, active: seq<string>) returns (kept: seq<string>)
    ensures kept == Present(ejected, active)
    ensures Subsequence(kept, ejected)
    ensures forall otp :: otp in kept <==> otp in ejected && otp in active
    ensures forall otp | otp in active :: multiset(kept)[otp] == multiset(ejected)[otp]
  {
    kept := [];
    for i := 0 to |ejected|
      invariant kept == Present(ejected[..i], active)
    {
      assert ejected[..i + 1][..i] == ejected[..i];
      if ejected[i] in active { kept := kept + [ejected[i]]; }
    }
    assert ejected[..|ejected|] == ejected;
    PresentAreListed(ejected, active);
    forall otp | otp in active ensures multiset(kept)[otp] == multiset(ejected)[otp] {
      PresentTimes(ejected, active, otp);
    }
  }

  // ----- one round: a rebalance and its validation -----

  /** How far a round came: the nodes asked for a control node, the members it listed, the rebalance issued through it,
      whether its tasks ended, the validation passes, and the members listed before the next round. */
  datatype Round = Round(
    seen: seq<Reply>,
    members: Option<seq<string>>,
    attempt: Option<Attempt>,
    tasksEnded: bool,
    passes: seq<seq<Reply>>,
    relisted: Option<seq<string>>,
    ended: nat)
  {
    /** The control node. */
    function Address(): string {
      if seen == [] then "" else seen[|seen| - 1].address
    }

    function Events(): seq<Event> {
      LocalEvents(seen) + IssueEvents(Address(), members, attempt, tasksEnded) + PassesEvents(passes)
      + if relisted.Some? then [Listed(Address(), relisted.value)] else []
    }
  }

  function IssueEvents(address: string, members: Option<seq<string>>, attempt: Option<Attempt>,
                       tasksEnded: bool): seq<Event> {
    (if members.Some? then [Listed(address, members.value)] else [])
    + (if attempt.Some? then [Started(attempt.value)] else [])
    + if tasksEnded then [TasksEnded(address)] else []
  }

  /** The steps come in the order of the code, each only after the one before: the rebalance goes through the control
      node, names the members that this node has just listed and the names to eject, and is validated once its tasks
      ended. */
  ghost predicate SoundRound(round: Round, addresses: seq<string>, ejected: seq<string>) {
    && (round.members.Some? ==> Controlled(round.seen, addresses, ejected))
    && (round.attempt.Some? ==> round.members.Some?
                                && Issues(round.attempt.value, round.Address(), round.members.value, ejected))
    && (round.tasksEnded ==> round.attempt.Some?)
    && (!round.tasksEnded ==> round.passes == [] && round.relisted.None?)
    && |round.passes| <= MAX_PASSES
  }

  ghost predicate Issues(attempt: Attempt, address: string, known: seq<string>, ejected: seq<string>) {
    attempt.address == address && attempt.known == known && attempt.ejected == ejected
  }

  /** The cluster was not found balanced before the stability window was over. */
  ghost predicate Unsettled(round: Round, addresses: seq<string>, ejected: seq<string>) {
    && round.tasksEnded && round.attempt.Some? && Rejected(round.passes, addresses, ejected)
    && round.ended >= round.attempt.value.time + STABILITY
  }

  /** The round leads to another one. */
  ghost predicate GaveUp(round: Round, addresses: seq<string>, ejected: seq<string>) {
    Unsettled(round, addresses, ejected) && (round.relisted.Some? <==> ejected != [])
  }

  /** The round ends the run with this outcome. */
  ghost predicate EndsWith(round: Round, r: Outcome, addresses: seq<string>, ejected: seq<string>) {
    && round.relisted.None?
    && match r
       case Balanced => round.tasksEnded && Accepted(round.passes, addresses, ejected)
       case NoControlNode => NoControl(round.seen, addresses, ejected) && round.members.None?
       case StartFailed => Controlled(round.seen, addresses, ejected) && !round.tasksEnded
       case WaitFailed => round.attempt.Some? && !round.tasksEnded
       case ListFailed => Unsettled(round, addresses, ejected) && ejected != []
       case Cancelled => round.tasksEnded && Rejected(round.passes, addresses, ejected)
       case Exhausted => false
  }

  /** Starts a rebalance through the chosen node and waits for its tasks to end. */
  method IssueRebalance(env: Environment, address: string, ejected: seq<string>)
    returns (failure: Option<Outcome>, ghost members: Option<seq<string>>, ghost attempt: Option<Attempt>)
    requires !env.failed
    modifies env`now, env`log, env`failed
    ensures env.failed <==> failure.Some?
    ensures failure.Some? ==> failure.value.StartFailed? || (failure.value.WaitFailed? && attempt.Some?)
    ensures failure.None? ==> attempt.Some?
    ensures env.log == old(env.log) + IssueEvents(address, members, attempt, failure.None?)
    ensures attempt.Some? ==> members.Some? && Issues(attempt.value, address, members.value, ejected)
    ensures attempt.Some? ==> old(env.now) <= attempt.value.time <= env.now
    ensures env.now >= old(env.now)
  {
    attempt := None;
    var listed := env.ListNodeOtps(address);
    members := listed;
    if listed.None? { return Some(StartFailed), members, attempt; }
    var ok;
    ghost var started;
    ok, started := env.BeginRebalance(address, listed.value, ejected);
    attempt := Some(started);
    if !ok { return Some(StartFailed), members, attempt; }
    ok := env.WaitForNoRunningTasks(address);
    failure := if ok then None else Some(WaitFailed);
  }

  lemma RoundEvents(log: seq<Event>, round: Round)
    requires round.relisted.None?
    ensures log + LocalEvents(round.seen) + IssueEvents(round.Address(), round.members, round.attempt, round.tasksEnded)
            + PassesEvents(round.passes) == log + round.Events()
  {
  }

  ghost predicate StartsAfter(round: Round, time: nat) {
    round.attempt.Some? ==> round.attempt.value.time >= time
  }

  /** Validates an issued rebalance; `began` is the log before its round. */
  method ValidateRound(env: Environment, addresses: seq<string>, ejected: seq<string>, ghost issued: Round,
                       ghost began: seq<Event>)
    returns (r: Outcome, ghost round: Round)
    requires !env.failed && SoundRound(issued, addresses, ejected) && issued.ended == env.now
    requires issued.tasksEnded && issued.passes == [] && issued.relisted.None? && issued.attempt.value.time <= env.now
    requires env.log == began + issued.Events()
    modifies env`now, env`log, env`failed, env`slept
    ensures env.failed <==> r.IsInterruption()
    ensures old(env.now) <= env.now == round.ended
    ensures env.log == began + round.Events()
    ensures SoundRound(round, addresses, ejected) && round == issued.(passes := round.passes, ended := round.ended)
    ensures if r.Exhausted? then Unsettled(round, addresses, ejected) else EndsWith(round, r, addresses, ejected)
  {
    var poll;
    ghost var passes;
    poll, passes := AwaitBalance(env, addresses, ejected);
    round := issued.(passes := passes, ended := env.now);
    RoundEvents(began, issued);
    RoundEvents(began, round);
    match poll {
      case FoundBalanced => r := Balanced;
      case TimedOut => r := Exhausted;
      case PollCancelled => r := Cancelled;
    }
  }

  /** One rebalance with its validation. Exhausted means that the stability window is over. */
  method AttemptOnce(env: Environment, addresses: seq<string>, ejected: seq<string>)
    returns (r: Outcome, address: string, ghost round: Round)
    requires !env.failed
    modifies env
    ensures env.failed <==> r.IsInterruption()
    ensures old(env.now) <= env.now == round.ended
    ensures env.log == old(env.log) + round.Events()
    ensures SoundRound(round, addresses, ejected) && round.relisted.None? && StartsAfter(round, old(env.now))
    ensures if r.Exhausted? then Unsettled(round, addresses, ejected) && address == round.Address()
            else EndsWith(round, r, addresses, ejected)
  {
    var found;
    ghost var seen, members, attempt;
    found, address, seen := SelectControlNode(env, addresses, ejected);
    round := Round(seen, None, None, false, [], None, env.now);
    RoundEvents(old(env.log), round);
    if !found { return NoControlNode, address, round; }
    var failure;
    failure, members, attempt := IssueRebalance(env, address, ejected);
    round := Round(seen, members, attempt, failure.None?, [], None, env.now);
    RoundEvents(old(env.log), round);
    if failure.Some? { return failure.value, address, round; }
    r, round := ValidateRound(env, addresses, ejected, round, old(env.log));
  }

  /** The names to eject in the next round. */
  function Kept(ejected: seq<string>, relisted: Option<seq<string>>): seq<string> {
    if relisted.None? then [] else Present(ejected, relisted.value)
  }

  /** Drops the names that the control node no longer lists; with nothing to eject the members are not even listed. */
  method FilterEjected(env: Environment, address: string, ejected: seq<string>)
    returns (ok: bool, kept: seq<string>, ghost relisted: Option<seq<string>>)
    requires !env.failed
    modifies env`now, env`log, env`failed
    ensures env.now >= old(env.now) && env.failed == !ok
    ensures env.log == old(env.log) + if relisted.Some? then [Listed(address, relisted.value)] else []
    ensures relisted.Some? <==> ok && ejected != []
    ensures ok ==> kept == Kept(ejected, relisted)
    ensures !ok ==> ejected != []
  {
    relisted := None;
    if |ejected| == 0 { return true, [], relisted; }
    var active := env.ListNodeOtps(address);
    relisted := active;
    if active.None? { return false, [], relisted; }
    kept := StillPresent(ejected, active.value);
    ok := true;
  }

  lemma RelistedEvents(log: seq<Event>, round: Round, relisted: Option<seq<string>>, ended: nat)
    requires round.relisted.None?
    ensures log + round.Events() + (if relisted.Some? then [Listed(round.Address(), relisted.value)] else [])
         == log + round.(relisted := relisted, ended := ended).Events()
  {
  }

  // ----- runs -----

  function RunEvents(rounds: seq<Round>): seq<Event> {
    if rounds == [] then [] else rounds[0].Events() + RunEvents(rounds[1..])
  }

  lemma RunEventsPrepend(log: seq<Event>, first: Round, rest: seq<Round>)
    ensures log + first.Events() + RunEvents(rest) == log + RunEvents([first] + rest)
  {
    assert ([first] + rest)[1..] == rest;
  }

  /** A run from `start` on: every round but the last gave up and left the names that were still listed to the next; the
      last ends with the outcome. Without a round, or after the last one gave up, the time is over. */
  ghost predicate SoundRun(r: Outcome, rounds: seq<Round>, start: nat, now: nat, deadline: nat, addresses: seq<string>,
                           ejected: seq<string>)
    decreases |rounds|
  {
    if rounds == [] then r.Exhausted? && now > deadline
    else
      var first := rounds[0];
      && start <= deadline && SoundRound(first, addresses, ejected) && StartsAfter(first, start)
      && if |rounds| == 1 && !r.Exhausted? then EndsWith(first, r, addresses, ejected)
         else GaveUp(first, addresses, ejected)
              && SoundRun(r, rounds[1..], first.ended, now, deadline, addresses, Kept(ejected, first.relisted))
  }

  lemma OneRound(log: seq<Event>, r: Outcome, round: Round, start: nat, now: nat, deadline: nat, addresses: seq<string>,
                 ejected: seq<string>)
    requires start <= deadline && SoundRound(round, addresses, ejected) && StartsAfter(round, start)
    requires !r.Exhausted? && EndsWith(round, r, addresses, ejected)
    ensures SoundRun(r, [round], start, now, deadline, addresses, ejected)
    ensures log + round.Events() == log + RunEvents([round])
  {
    RunEventsPrepend(log, round, []);
    assert [round] + [] == [round];
  }

  lemma MoreRounds(r: Outcome, first: Round, rest: seq<Round>, start: nat, now: nat, deadline: nat,
                   addresses: seq<string>, ejected: seq<string>)
    requires start <= deadline && SoundRound(first, addresses, ejected) && StartsAfter(first, start)
    requires GaveUp(first, addresses, ejected)
    requires SoundRun(r, rest, first.ended, now, deadline, addresses, Kept(ejected, first.relisted))
    requires rest == [] ==> r.Exhausted?
    ensures SoundRun(r, [first] + rest, start, now, deadline, addresses, ejected)
  {
    assert ([first] + rest)[1..] == rest;
  }

  /** Everything the run does and sees is that of its rounds, in order. */
  method RebalanceWithRetry(env: Environment, addresses: seq<string>, ejected: seq<string>, deadline: nat)
    returns (r: Outcome, ghost rounds: seq<Round>)
    requires !env.failed
    modifies env
    ensures env.failed <==> r.IsInterruption()
    ensures env.now >= old(env.now)
    ensures env.log == old(env.log) + RunEvents(rounds)
    ensures SoundRun(r, rounds, old(env.now), env.now, deadline, addresses, ejected)
    decreases deadline - env.now
  {
    rounds := [];
    var t := env.Clock();
    if t > deadline { return Exhausted, rounds; }
    var address;
    ghost var round;
    r, address, round := AttemptOnce(env, addresses, ejected);
    if r != Exhausted {
      OneRound(old(env.log), r, round, old(env.now), env.now, deadline, addresses, ejected);
      return r, [round];
    }
    var ok, kept;
    ghost var relisted, rest;
    ok, kept, relisted := FilterEjected(env, address, ejected);
    RelistedEvents(old(env.log), round, relisted, env.now);
    round := round.(relisted := relisted, ended := env.now);
    if !ok {
      OneRound(old(env.log), ListFailed, round, old(env.now), env.now, deadline, addresses, ejected);
      return ListFailed, [round];
    }
    r, rest := RebalanceWithRetry(env, addresses, kept, deadline);
    RunEventsPrepend(old(env.log), round, rest);
    MoreRounds(r, round, rest, old(env.now), env.now, deadline, addresses, ejected);
    rounds := [round] + rest;
  }

  // ----- what a run shows -----

  /** The first round is sound, and what comes after it is a run of its own. */
  lemma RunBegins(r: Outcome, rounds: seq<Round>, start: nat, now: nat, deadline: nat, addresses: seq<string>,
                  ejected: seq<string>)
    requires SoundRun(r, rounds, start, now, deadline, addresses, ejected) && rounds != []
    ensures SoundRound(rounds[0], addresses, ejected) && StartsAfter(rounds[0], start) && start <= deadline
    ensures |rounds| > 1 || r.Exhausted? ==>
              && GaveUp(rounds[0], addresses, ejected)
              && SoundRun(r, rounds[1..], rounds[0].ended, now, deadline, addresses, Kept(ejected, rounds[0].relisted))
    ensures RunEvents(rounds) == rounds[0].Events() + RunEvents(rounds[1..])
    ensures |rounds| == 1 ==> RunEvents(rounds) == rounds[0].Events()
  {
  }

  /** The rebalances that were issued, in order. */
  function Attempts(rounds: seq<Round>): seq<Attempt> {
    if rounds == [] then []
    else (if rounds[0].attempt.Some? then [rounds[0].attempt.value] else []) + Attempts(rounds[1..])
  }

  /** The names that the last round was to eject. */
  function InForce(rounds: seq<Round>, ejected: seq<string>): seq<string>
    decreases |rounds|
  {
    if |rounds| <= 1 then ejected else InForce(rounds[1..], Kept(ejected, rounds[0].relisted))
  }

  /** Attempts start at least one stability window apart, and each ejects some of the names. */
  ghost predicate SpacedAttempts(attempts: seq<Attempt>, from: nat, ejected: seq<string>) {
    && (forall a | a in attempts :: a.time >= from && Subsequence(a.ejected, ejected))
    && forall i | 0 <= i < |attempts| - 1 :: attempts[i + 1].time >= attempts[i].time + STABILITY
  }

  lemma SpacedPrepend(first: Attempt, rest: seq<Attempt>, from: nat, later: nat, ejected: seq<string>,
                      kept: seq<string>)
    requires first.time >= from && first.ejected == ejected && later >= first.time + STABILITY
    requires SpacedAttempts(rest, later, kept) && Subsequence(kept, ejected)
    ensures SpacedAttempts([first] + rest, from, ejected)
  {
    SubsequenceReflexive(ejected);
    forall a | a in rest ensures Subsequence(a.ejected, ejected) { SubsequenceTransitive(a.ejected, kept, ejected); }
    if rest != [] { assert rest[0] in rest; }
  }

  lemma KeptIsSubsequence(ejected: seq<string>, relisted: Option<seq<string>>)
    ensures Subsequence(Kept(ejected, relisted), ejected)
  {
    if relisted.Some? { PresentAreListed(ejected, relisted.value); }
  }

  lemma OneSpaced(round: Round, start: nat, addresses: seq<string>, ejected: seq<string>)
    requires SoundRound(round, addresses, ejected) && StartsAfter(round, start)
    ensures SpacedAttempts(Attempts([round]), start, ejected) && |Attempts([round])| <= 1
  {
    SubsequenceReflexive(ejected);
    assert [round][1..] == [];
  }

  /** The time left bounds the number of rebalances. */
  lemma {:induction false} AttemptsAreSpaced(r: Outcome, rounds: seq<Round>, start: nat, now: nat, deadline: nat,
                                             addresses: seq<string>, ejected: seq<string>)
    requires SoundRun(r, rounds, start, now, deadline, addresses, ejected)
    ensures SpacedAttempts(Attempts(rounds), start, ejected)
    ensures |Attempts(rounds)| <= MaxAttempts(start, deadline)
    ensures forall i | 0 <= i < |Attempts(rounds)| - 1 ::
              Attempts(rounds)[i + 1].time >= Attempts(rounds)[i].time + 15000
    ensures start <= deadline ==> |Attempts(rounds)| <= (deadline - start) / 15000 + 1
    ensures r.Exhausted? ==> now > deadline
    decreases |rounds|
  {
    if rounds != [] {
      var first := rounds[0];
      RunBegins(r, rounds, start, now, deadline, addresses, ejected);
      if |rounds| > 1 || r.Exhausted? {
        var kept := Kept(ejected, first.relisted);
        AttemptsAreSpaced(r, rounds[1..], first.ended, now, deadline, addresses, kept);
        KeptIsSubsequence(ejected, first.relisted);
        SpacedPrepend(first.attempt.value, Attempts(rounds[1..]), start, first.ended, ejected, kept);
        OneMoreAttempt(start, first.ended, deadline);
      } else {
        OneSpaced(first, start, addresses, ejected);
        assert rounds == [first];
      }
    }
  }

  /** The node through which the rebalance at position i goes had answered before, under a name that is not ejected, and
      has just listed the members that the rebalance names. */
  ghost predicate WellIssued(log: seq<Event>, i: nat)
    requires i < |log| && log[i].Started?
  {
    && (exists j :: 0 <= j < i && AnsweredAs(log[j], log[i].attempt))
    && i > 0 && log[i - 1] == Listed(log[i].attempt.address, log[i].attempt.known)
  }

  ghost predicate AnsweredAs(e: Event, a: Attempt) {
    e.AskedLocal? && e.address == a.address && e.local.Some? && e.local.value.otp != ""
        && e.local.value.otp !in a.ejected
  }

  lemma {:induction false} OnlyQuestions(pass: seq<Reply>)
    ensures forall e | e in PassEvents(pass) :: e.AskedLocal? || e.AskedView?
  {
    if pass != [] { OnlyQuestions(pass[..|pass| - 1]); }
  }

  lemma {:induction false} OnlyQuestionsInPasses(passes: seq<seq<Reply>>)
    ensures forall e | e in PassesEvents(passes) :: e.AskedLocal? || e.AskedView?
  {
    if passes != [] {
      OnlyQuestionsInPasses(passes[..|passes| - 1]);
      OnlyQuestions(passes[|passes| - 1]);
    }
  }

  lemma {:induction false} LastLocalEvent(seen: seq<Reply>)
    ensures |LocalEvents(seen)| == |seen|
    ensures forall i | 0 <= i < |seen| :: LocalEvents(seen)[i] == AskedLocal(seen[i].address, seen[i].local)
  {
    if seen != [] { LastLocalEvent(seen[..|seen| - 1]); }
  }

  /** In a round the rebalance follows the search, and comes right after the listing. */
  lemma StartInRound(round: Round, addresses: seq<string>, ejected: seq<string>, i: nat)
    requires SoundRound(round, addresses, ejected) && i < |round.Events()| && round.Events()[i].Started?
    ensures i == |round.seen| + 1 && round.attempt == Some(round.Events()[i].attempt)
    ensures WellIssued(round.Events(), i)
  {
    LastLocalEvent(round.seen);
    OnlyQuestionsInPasses(round.passes);
    var k := |round.seen|;
    var issued, validated := IssueEvents(round.Address(), round.members, round.attempt, round.tasksEnded),
        PassesEvents(round.passes);
    forall j | 0 <= j < |validated| ensures !validated[j].Started? { assert validated[j] in validated; }
    assert AnsweredAs(round.Events()[k - 1], round.attempt.value);
  }

  /** So it is with every rebalance of the log. */
  ghost predicate IssuesWell(log: seq<Event>) {
    forall i | 0 <= i < |log| && log[i].Started? :: WellIssued(log, i)
  }

  lemma IssuesWellTogether(early: seq<Event>, late: seq<Event>)
    requires IssuesWell(early) && IssuesWell(late)
    ensures IssuesWell(early + late)
  {
    var log := early + late;
    forall i | 0 <= i < |log| && log[i].Started? ensures WellIssued(log, i) {
      if i < |early| {
        var j :| 0 <= j < i && AnsweredAs(early[j], early[i].attempt);
        assert AnsweredAs(log[j], log[i].attempt) && log[i - 1] == early[i - 1];
      } else {
        var k := i - |early|;
        var j :| 0 <= j < k && AnsweredAs(late[j], late[k].attempt);
        assert AnsweredAs(log[|early| + j], log[i].attempt) && log[i - 1] == late[k - 1];
      }
    }
  }

  lemma RoundIssuesWell(round: Round, addresses: seq<string>, ejected: seq<string>)
    requires SoundRound(round, addresses, ejected)
    ensures IssuesWell(round.Events())
  {
    forall i | 0 <= i < |round.Events()| && round.Events()[i].Started? ensures WellIssued(round.Events(), i) {
      StartInRound(round, addresses, ejected, i);
    }
  }

  /** Every rebalance of a run goes through a node that had answered before under a name that is not ejected. */
  lemma {:induction false} RebalancesAreWellIssued(r: Outcome, rounds: seq<Round>, start: nat, now: nat, deadline: nat,
                                                   addresses: seq<string>, ejected: seq<string>)
    requires SoundRun(r, rounds, start, now, deadline, addresses, ejected)
    ensures IssuesWell(RunEvents(rounds))
    decreases |rounds|
  {
    if rounds != [] {
      RunBegins(r, rounds, start, now, deadline, addresses, ejected);
      RoundIssuesWell(rounds[0], addresses, ejected);
      if |rounds| > 1 {
        RebalancesAreWellIssued(r, rounds[1..], rounds[0].ended, now, deadline, addresses,
                                Kept(ejected, rounds[0].relisted));
        IssuesWellTogether(rounds[0].Events(), RunEvents(rounds[1..]));
      }
    }
  }

  /** How a successful run ends: with a rebalance, the end of its tasks, then only questions to the nodes, and of these
      a complete pass last that found the cluster balanced without the names that this very rebalance ejected. */
  ghost predicate ValidatedLast(log: seq<Event>, before: seq<Event>, a: Attempt, between: seq<Event>, pass: seq<Reply>,
                                addresses: seq<string>) {
    && log == before + [Started(a), TasksEnded(a.address)] + between + PassEvents(pass)
    && (forall e | e in between :: e.AskedLocal? || e.AskedView?)
    && IsPass(pass, addresses, a.ejected, true)
  }

  lemma RoundValidatedLast(round: Round, addresses: seq<string>, ejected: seq<string>)
    returns (before: seq<Event>, a: Attempt, between: seq<Event>, pass: seq<Reply>)
    requires SoundRound(round, addresses, ejected) && EndsWith(round, Balanced, addresses, ejected)
    ensures ValidatedLast(round.Events(), before, a, between, pass, addresses) && a.ejected == ejected
  {
    var k := |round.passes| - 1;
    before := LocalEvents(round.seen) + [Listed(round.Address(), round.members.value)];
    a, between, pass := round.attempt.value, PassesEvents(round.passes[..k]), round.passes[k];
    OnlyQuestionsInPasses(round.passes[..k]);
    assert PassesEvents(round.passes) == between + PassEvents(pass);
    assert IssueEvents(round.Address(), round.members, round.attempt, true)
        == [Listed(round.Address(), round.members.value)] + [Started(a), TasksEnded(a.address)];
  }

  /** Success is decided by what was seen after the last rebalance. */
  lemma {:induction false} BalancedMeansValidated(rounds: seq<Round>, start: nat, now: nat, deadline: nat,
                                                  addresses: seq<string>, ejected: seq<string>)
    returns (before: seq<Event>, a: Attempt, between: seq<Event>, pass: seq<Reply>)
    requires SoundRun(Balanced, rounds, start, now, deadline, addresses, ejected)
    ensures ValidatedLast(RunEvents(rounds), before, a, between, pass, addresses)
    ensures a.ejected == InForce(rounds, ejected)
    decreases |rounds|
  {
    var first := rounds[0];
    if |rounds| == 1 {
      before, a, between, pass := RoundValidatedLast(first, addresses, ejected);
      assert RunEvents(rounds) == first.Events();
    } else {
      before, a, between, pass :=
        BalancedMeansValidated(rounds[1..], first.ended, now, deadline, addresses, Kept(ejected, first.relisted));
      PrependValidated(first.Events(), RunEvents(rounds[1..]), before, a, between, pass, addresses);
      before := first.Events() + before;
    }
  }

  lemma PrependValidated(more: seq<Event>, log: seq<Event>, before: seq<Event>, a: Attempt, between: seq<Event>,
                         pass: seq<Reply>, addresses: seq<string>)
    requires ValidatedLast(log, before, a, between, pass, addresses)
    ensures ValidatedLast(more + log, more + before, a, between, pass, addresses)
  {
  }

  /** A listing of the members, received during the run, did not have the name. */
  ghost predicate Unlisted(otp: string, log: seq<Event>) {
    exists e :: e in log && e.Listed? && otp !in e.otps
  }

  /** Over all rounds, a name is dropped only if some listing did not have it. */
  lemma {:induction false} DropsAreUnlisted(r: Outcome, rounds: seq<Round>, start: nat, now: nat, deadline: nat,
                                            addresses: seq<string>, ejected: seq<string>)
    requires SoundRun(r, rounds, start, now, deadline, addresses, ejected)
    ensures Subsequence(InForce(rounds, ejected), ejected)
    ensures forall otp | otp in ejected && otp !in InForce(rounds, ejected) :: Unlisted(otp, RunEvents(rounds))
    decreases |rounds|
  {
    SubsequenceReflexive(ejected);
    if |rounds| > 1 {
      var first := rounds[0];
      var kept := Kept(ejected, first.relisted);
      DropsAreUnlisted(r, rounds[1..], first.ended, now, deadline, addresses, kept);
      KeptIsSubsequence(ejected, first.relisted);
      SubsequenceTransitive(InForce(rounds, ejected), kept, ejected);
      forall otp | otp in ejected && otp !in InForce(rounds, ejected) ensures Unlisted(otp, RunEvents(rounds)) {
        if otp in kept {
          var e :| e in RunEvents(rounds[1..]) && e.Listed? && otp !in e.otps;
          assert e in RunEvents(rounds);
        } else {
          PresentAreListed(ejected, first.relisted.value);
          assert Listed(first.Address(), first.relisted.value) in first.Events();
          assert Listed(first.Address(), first.relisted.value) in RunEvents(rounds);
        }
      }
    }
  }

  /** A retry ejects exactly those names of the rebalance before it that the listing in between still had, as often as
      they were there; it lists nothing if there was nothing to eject. */
  ghost predicate EjectsListed(was: seq<string>, relisted: Option<seq<string>>, next: seq<string>) {
    if was == [] then relisted.None? && next == []
    else && relisted.Some? && Subsequence(next, was)
         && forall otp :: multiset(next)[otp] == if otp in relisted.value then multiset(was)[otp] else 0
  }

  lemma KeptEjectsListed(was: seq<string>, relisted: Option<seq<string>>)
    requires relisted.Some? <==> was != []
    ensures EjectsListed(was, relisted, Kept(was, relisted))
  {
    if relisted.Some? {
      PresentAreListed(was, relisted.value);
      forall otp ensures multiset(Kept(was, relisted))[otp] == if otp in relisted.value then multiset(was)[otp] else 0 {
        PresentTimes(was, relisted.value, otp);
      }
    }
  }

  /** If `next` issues a rebalance, it ejects what the listing at the end of `first` left. */
  ghost predicate EjectsAfter(first: Round, next: Round) {
    next.attempt.Some? ==>
      && first.attempt.Some?
      && EjectsListed(first.attempt.value.ejected, first.relisted, next.attempt.value.ejected)
  }

  lemma GaveUpThenEjects(first: Round, next: Round, addresses: seq<string>, ejected: seq<string>)
    requires SoundRound(first, addresses, ejected) && GaveUp(first, addresses, ejected)
    requires SoundRound(next, addresses, Kept(ejected, first.relisted))
    ensures EjectsAfter(first, next)
  {
    KeptEjectsListed(ejected, first.relisted);
  }

  lemma {:induction false} RetriesEjectListed(r: Outcome, rounds: seq<Round>, start: nat, now: nat, deadline: nat,
                                              addresses: seq<string>, ejected: seq<string>, i: nat)
    requires SoundRun(r, rounds, start, now, deadline, addresses, ejected) && i + 1 < |rounds|
    ensures EjectsAfter(rounds[i], rounds[i + 1])
    decreases i
  {
    var first, rest := rounds[0], rounds[1..];
    var kept := Kept(ejected, first.relisted);
    RunBegins(r, rounds, start, now, deadline, addresses, ejected);
    if i == 0 {
      RunBegins(r, rest, first.ended, now, deadline, addresses, kept);
      GaveUpThenEjects(first, rest[0], addresses, ejected);
    } else {
      RetriesEjectListed(r, rest, first.ended, now, deadline, addresses, kept, i - 1);
      assert rest[i - 1] == rounds[i] && rest[i] == rounds[i + 1];
    }
  }

  /** What success says about the nodes that were to leave: for every name that the caller wanted to eject, some listing
      of the members did not have it, or no counted node reported it in the pass that came after the last rebalance. */
  lemma BalancedMeansGone(rounds: seq<Round>, start: nat, now: nat, deadline: nat, addresses: seq<string>,
                          ejected: seq<string>)
    returns (before: seq<Event>, a: Attempt, between: seq<Event>, pass: seq<Reply>)
    requires SoundRun(Balanced, rounds, start, now, deadline, addresses, ejected)
    ensures ValidatedLast(RunEvents(rounds), before, a, between, pass, addresses)
    ensures forall otp | otp in ejected ::
              || Unlisted(otp, RunEvents(rounds))
              || forall r | r in pass && r.local.Some? && r.cluster.Some? && r.local.value.otp != "" ::
                   r.local.value.otp != otp
  {
    before, a, between, pass := BalancedMeansValidated(rounds, start, now, deadline, addresses, ejected);
    DropsAreUnlisted(Balanced, rounds, start, now, deadline, addresses, ejected);
    forall reply, otp | reply in pass && Counted(reply) && otp in a.ejected ensures reply.local.value.otp != otp {
      assert Healthy(reply, a.ejected);
    }
  }

  /** What success says about all listed nodes, those that leave and those that were never part of the cluster included:
      exactly one of them names itself the orchestrator. */
  lemma BalancedMeansOneOrchestrator(log: seq<Event>, before: seq<Event>, a: Attempt, between: seq<Event>,
                                     pass: seq<Reply>, addresses: seq<string>)
    returns (at: nat)
    requires ValidatedLast(log, before, a, between, pass, addresses)
    ensures at < |pass| == |addresses| && NamedBy(pass, at)
    ensures pass[at].cluster.value.balanced && pass[at].local.value.otp !in a.ejected
  {
    at := TheOrchestrator(pass);
    assert Healthy(pass[at], a.ejected);
  }

  /** And every node that answered both questions and is in a cluster was healthy. */
  lemma BalancedMeansHealthy(log: seq<Event>, before: seq<Event>, a: Attempt, between: seq<Event>, pass: seq<Reply>,
                             addresses: seq<string>)
    requires ValidatedLast(log, before, a, between, pass, addresses)
    ensures |pass| == |addresses| && forall i | 0 <= i < |pass| :: pass[i].address == addresses[i]
    ensures forall r | r in pass && r.local.Some? && r.cluster.Some? && r.local.value.otp != "" ::
              && (r.local.value.status == "" || r.local.value.status == "healthy")
              && r.local.value.otp !in a.ejected
    ensures forall r | r in pass :: AskedLocal(r.address, r.local) in log
    ensures forall r | r in pass && r.local.Some? :: AskedView(r.address, r.cluster) in log
  {
    PassVerdict(pass, addresses, a.ejected, true);
    PassAsked(pass);
  }

  /** Every node was asked about itself, and about the cluster if it answered. */
  lemma {:induction false} PassAsked(pass: seq<Reply>)
    ensures forall r | r in pass :: AskedLocal(r.address, r.local) in PassEvents(pass)
    ensures forall r | r in pass && r.local.Some? :: AskedView(r.address, r.cluster) in PassEvents(pass)
  {
    if pass != [] {
      var k := |pass| - 1;
      PassAsked(pass[..k]);
      assert pass == pass[..k] + [pass[k]];
      assert ReplyEvents(pass[k])[0] == AskedLocal(pass[k].address, pass[k].local);
      if pass[k].local.Some? { assert ReplyEvents(pass[k])[1] == AskedView(pass[k].address, pass[k].cluster); }
    }
  }

  lemma {:induction false} TheOrchestrator(pass: seq<Reply>) returns (at: nat)
    requires Orchestrators(pass) == 1
    ensures at < |pass| && IsOrchestrator(pass[at]) && forall i | 0 <= i < |pass| && i != at :: !IsOrchestrator(pass[i])
  {
    var k := |pass| - 1;
    if IsOrchestrator(pass[k]) {
      at := k;
      SomeOrchestrator(pass[..k]);
      forall i | 0 <= i < k ensures !IsOrchestrator(pass[i]) { assert pass[..k][i] in pass[..k]; }
    } else {
      at := TheOrchestrator(pass[..k]);
      assert pass[at] == pass[..k][at];
      forall i | 0 <= i < k && i != at ensures !IsOrchestrator(pass[i]) { assert pass[..k][i] == pass[i]; }
    }
  }

  /** The docker deployer allows 15 minutes for retries: at most 61 rebalances are ever started. */
  method ReconcileRebalance(env: Environment, addresses: seq<string>, ejected: seq<string>)
    returns (r: Outcome, ghost rounds: seq<Round>, ghost start: nat)
    requires !env.failed
    modifies env
    ensures env.failed <==> r.IsInterruption()
    ensures old(env.now) <= start <= env.now
    ensures env.log == old(env.log) + RunEvents(rounds)
    ensures SoundRun(r, rounds, start, env.now, start + 15 * 60 * 1000, addresses, ejected)
    ensures |Attempts(rounds)| <= 61
  {
    var now := env.Clock();
    start := now;
    r, rounds := RebalanceWithRetry(env, addresses, ejected, now + RETRY_WINDOW);
    AttemptsAreSpaced(r, rounds, start, env.now, start + RETRY_WINDOW, addresses, ejected);
  }
}
