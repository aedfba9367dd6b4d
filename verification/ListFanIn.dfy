/** Listing the clusters of all deployers at once: one worker per deployer, one channel, one closer.
    Any interleaving of their steps is allowed. */
module ListFanIn {
  import Bags

  /** A listed cluster together with the deployer that runs it. */
  datatype Item = Item(deployer: string, cluster: string)

  /** What each deployer's listing returns - possibly nothing, if it failed - and the capacity of the channel. */
  datatype Config = Config(lists: seq<seq<Item>>, capacity: nat)

  datatype Worker = Idle | Listing | Sending(rest: seq<Item>) | Done

  /** `Added(k)`: the wait group counts worker k, which is not running yet. */
  datatype Main = Spawning(next: nat) | Added(next: nat) | Ranging | Finished

  datatype Closer = NotStarted | Waiting | Released | Closed

  datatype State = State(
    main: Main, workers: seq<Worker>, counter: int, closer: Closer,
    channel: seq<Item>, closed: bool, collected: seq<Item>, panicked: bool)

  datatype Action =
    | Add | Spawn | SpawnCloser
    | List(worker: nat) | Send(worker: nat) | Finish(worker: nat)
    | Release | Close | Receive | EndRange

  function Init(c: Config): State {
    State(Spawning(0), seq(|c.lists|, _ => Idle), 0, NotStarted, [], false, [], false)
  }

  predicate Enabled(c: Config, s: State, a: Action)
    requires |s.workers| == |c.lists|
  {
    match a
    case Add => s.main.Spawning? && s.main.next < |c.lists|
    case Spawn => s.main.Added? && s.main.next < |c.lists|
    case SpawnCloser => s.main == Spawning(|c.lists|)
    case List(i) => i < |s.workers| && s.workers[i].Listing?
    // sending blocks while the channel is full; on a closed channel it panics instead
    case Send(i) => i < |s.workers| && s.workers[i].Sending? && s.workers[i].rest != []
                    && (s.closed || |s.channel| < c.capacity)
    case Finish(i) => i < |s.workers| && s.workers[i] == Sending([])
    case Release => s.closer.Waiting? && s.counter == 0
    case Close => s.closer.Released?
    case Receive => s.main.Ranging? && s.channel != []
    case EndRange => s.main.Ranging? && s.channel == [] && s.closed
  }

  function Next(c: Config, s: State, a: Action): State
    requires |s.workers| == |c.lists| && Enabled(c, s, a)
  {
    match a
    case Add => s.(main := Added(s.main.next), counter := s.counter + 1)
    case Spawn => s.(main := Spawning(s.main.next + 1), workers := s.workers[s.main.next := Listing])
    case SpawnCloser => s.(main := Ranging, closer := Waiting)
    case List(i) => s.(workers := s.workers[i := Sending(c.lists[i])])
    case Send(i) =>
      if s.closed then s.(panicked := true)
      else s.(channel := s.channel + [s.workers[i].rest[0]], workers := s.workers[i := Sending(s.workers[i].rest[1..])])
    case Finish(i) => s.(workers := s.workers[i := Done], counter := s.counter - 1,
                         panicked := s.panicked || s.counter <= 0)
    case Release => s.(closer := Released)
    case Close => s.(closer := Closed, closed := true, panicked := s.panicked || s.closed)
    case Receive => s.(channel := s.channel[1..], collected := s.collected + [s.channel[0]])
    case EndRange => s.(main := Finished)
  }

  // ----- what every reachable state satisfies -----

  function Active(workers: seq<Worker>): nat {
    if workers == [] then 0
    else
      var w := workers[|workers| - 1];
      Active(workers[..|workers| - 1]) + if w.Listing? || w.Sending? then 1 else 0
  }

  function Owed(list: seq<Item>, w: Worker): seq<Item> {
    match w
    case Sending(rest) => rest
    case Done => []
    case _ => list
  }

  /** The items that workers have still to send. */
  function Outstanding(lists: seq<seq<Item>>, workers: seq<Worker>): multiset<Item>
    requires |lists| == |workers|
  {
    if lists == [] then multiset{}
    else
      var k := |lists| - 1;
      Outstanding(lists[..k], workers[..k]) + multiset(Owed(lists[k], workers[k]))
  }

  /** Everything that all deployers return. */
  function Union(lists: seq<seq<Item>>): multiset<Item> {
    if lists == [] then multiset{} else Union(lists[..|lists| - 1]) + multiset(lists[|lists| - 1])
  }

  ghost predicate Inv(c: Config, s: State) {
    && |s.workers| == |c.lists|
    && Counted(s)
    && Phased(c, s)
    && Conserved(c, s)
  }

  /** The wait group counts the workers that run, and the one about to start. */
  ghost predicate Counted(s: State) {
    s.counter == Active(s.workers) + (if s.main.Added? then 1 else 0)
  }

  ghost predicate Phased(c: Config, s: State)
    requires |s.workers| == |c.lists|
  {
    && !s.panicked
    && |s.channel| <= c.capacity
    && (if s.main.Spawning? || s.main.Added? then
          && s.main.next <= |c.lists| && (s.main.Added? ==> s.main.next < |c.lists|) && s.closer.NotStarted?
          && forall i | 0 <= i < |s.workers| :: s.workers[i].Idle? <==> i >= s.main.next
        else
          !s.closer.NotStarted? && forall i | 0 <= i < |s.workers| :: !s.workers[i].Idle?)
    && (s.closer.Released? || s.closer.Closed? ==> s.counter == 0)
    && (s.closed <==> s.closer.Closed?)
    && (s.main.Finished? ==> s.closed && s.channel == [])
  }

  /** Nothing is lost or duplicated: every item is collected, in the channel or still to be sent. */
  ghost predicate Conserved(c: Config, s: State)
    requires |s.workers| == |c.lists|
  {
    multiset(s.collected) + multiset(s.channel) + Outstanding(c.lists, s.workers) == Union(c.lists)
  }

  lemma {:induction false} ActiveUpdate(workers: seq<Worker>, i: nat, w: Worker)
    requires i < |workers|
    ensures Active(workers[i := w]) == Active(workers) - Active([workers[i]]) + Active([w])
  {
    var k := |workers| - 1;
    assert [workers[i]][..0] == [] && [w][..0] == [];
    if i == k {
      assert workers[i := w][..k] == workers[..k];
    } else {
      assert workers[i := w][..k] == workers[..k][i := w];
      ActiveUpdate(workers[..k], i, w);
    }
  }

  lemma {:induction false} NoneActive(workers: seq<Worker>)
    ensures Active(workers) == 0 <==> forall i | 0 <= i < |workers| :: workers[i].Idle? || workers[i].Done?
  {
    if workers != [] {
      var k := |workers| - 1;
      NoneActive(workers[..k]);
      assert forall i | 0 <= i < k :: workers[..k][i] == workers[i];
    }
  }

  lemma OutstandingLast(lists: seq<seq<Item>>, workers: seq<Worker>, k: nat)
    requires |workers| == |lists| == k + 1
    ensures Outstanding(lists, workers) == Outstanding(lists[..k], workers[..k]) + multiset(Owed(lists[k], workers[k]))
  {
  }

  /** When worker i owes `sent` less than before, so do all workers together. */
  lemma {:induction false} OutstandingUpdate(lists: seq<seq<Item>>, workers: seq<Worker>, i: nat, w: Worker,
                                             sent: multiset<Item>)
    requires i < |workers| == |lists|
    requires multiset(Owed(lists[i], workers[i])) == multiset(Owed(lists[i], w)) + sent
    ensures Outstanding(lists, workers) == Outstanding(lists, workers[i := w]) + sent
  {
    var k := |workers| - 1;
    var after := workers[i := w];
    OutstandingLast(lists, workers, k);
    OutstandingLast(lists, after, k);
    if i == k {
      assert after[..k] == workers[..k];
      Bags.BagAssociates(Outstanding(lists[..k], workers[..k]), multiset(Owed(lists[k], w)), sent);
    } else {
      assert after[..k] == workers[..k][i := w];
      OutstandingUpdate(lists[..k], workers[..k], i, w, sent);
      Bags.BagCommutes(Outstanding(lists[..k], after[..k]), sent, multiset(Owed(lists[k], workers[k])));
    }
  }

  lemma {:induction false} NothingOutstanding(lists: seq<seq<Item>>, workers: seq<Worker>)
    requires |workers| == |lists| && forall i | 0 <= i < |workers| :: workers[i].Done?
    ensures Outstanding(lists, workers) == multiset{}
  {
    if lists != [] { NothingOutstanding(lists[..|lists| - 1], workers[..|lists| - 1]); }
  }

  lemma {:induction false} AllOutstanding(lists: seq<seq<Item>>, workers: seq<Worker>)
    requires |workers| == |lists| && forall i | 0 <= i < |workers| :: workers[i].Idle?
    ensures Outstanding(lists, workers) == Union(lists)
    ensures Active(workers) == 0
  {
    if lists != [] { AllOutstanding(lists[..|lists| - 1], workers[..|lists| - 1]); }
  }

  lemma InitInv(c: Config)
    ensures Inv(c, Init(c))
  {
    AllOutstanding(c.lists, Init(c).workers);
  }

  /** A worker that moves on without sending owes what it owed. */
  lemma NothingSent(c: Config, s: State, i: nat, w: Worker)
    requires i < |s.workers| == |c.lists| && Owed(c.lists[i], w) == Owed(c.lists[i], s.workers[i])
    ensures Outstanding(c.lists, s.workers[i := w]) == Outstanding(c.lists, s.workers)
  {
    OutstandingUpdate(c.lists, s.workers, i, w, multiset{});
  }

  lemma SendConserves(c: Config, s: State, i: nat)
    requires |s.workers| == |c.lists| && Enabled(c, s, Send(i)) && !s.closed && Conserved(c, s)
    ensures Conserved(c, Next(c, s, Send(i)))
  {
    var rest := s.workers[i].rest;
    assert rest == [rest[0]] + rest[1..];
    OutstandingUpdate(c.lists, s.workers, i, Sending(rest[1..]), multiset{rest[0]});
    Bags.Extended(s.channel, rest[0]);
    Bags.BagMoves(multiset(s.collected), multiset(s.channel),
                  Outstanding(c.lists, s.workers[i := Sending(rest[1..])]), multiset{rest[0]});
  }

  lemma ReceiveConserves(c: Config, s: State)
    requires |s.workers| == |c.lists| && Enabled(c, s, Receive) && Conserved(c, s)
    ensures Conserved(c, Next(c, s, Receive))
  {
    assert s.channel == [s.channel[0]] + s.channel[1..];
    assert multiset(s.channel) == multiset(s.channel[1..]) + multiset{s.channel[0]};
    Bags.Extended(s.collected, s.channel[0]);
    Bags.BagAssociates(multiset(s.collected), multiset{s.channel[0]}, multiset(s.channel[1..]));
  }

  /** Every step conserves the items, as long as nobody sends after the channel was closed. */
  lemma StepConserves(c: Config, s: State, a: Action)
    requires |s.workers| == |c.lists| && Enabled(c, s, a) && Conserved(c, s) && (a.Send? ==> !s.closed)
    requires a.Spawn? ==> s.workers[s.main.next].Idle?
    ensures |Next(c, s, a).workers| == |c.lists| && Conserved(c, Next(c, s, a))
  {
    match a {
      case Spawn => NothingSent(c, s, s.main.next, Listing);
      case List(i) => NothingSent(c, s, i, Sending(c.lists[i]));
      case Send(i) => SendConserves(c, s, i);
      case Finish(i) => NothingSent(c, s, i, Done);
      case Receive => ReceiveConserves(c, s);
      case _ =>
    }
  }

  lemma StepCounted(c: Config, s: State, a: Action)
    requires |s.workers| == |c.lists| && Phased(c, s) && Counted(s) && Enabled(c, s, a)
    ensures Counted(Next(c, s, a))
  {
    match a {
      case Spawn => ActiveUpdate(s.workers, s.main.next, Listing);
      case List(i) => ActiveUpdate(s.workers, i, Sending(c.lists[i]));
      case Send(i) => ActiveUpdate(s.workers, i, Sending(s.workers[i].rest[1..]));
      case Finish(i) => ActiveUpdate(s.workers, i, Done);
      case _ =>
    }
  }

  /** While a worker runs, the wait group is not at zero: the closer has not been released and the channel is open. */
  lemma RunningKeepsOpen(c: Config, s: State, i: nat)
    requires i < |s.workers| == |c.lists| && Phased(c, s) && Counted(s)
    requires s.workers[i].Listing? || s.workers[i].Sending?
    ensures s.counter > 0 && !s.closed && !s.closer.Released?
  {
    NoneActive(s.workers);
  }

  lemma StepPhased(c: Config, s: State, a: Action)
    requires |s.workers| == |c.lists| && Phased(c, s) && Counted(s) && Enabled(c, s, a)
    ensures |Next(c, s, a).workers| == |c.lists| && Phased(c, Next(c, s, a))
  {
    match a {
      case List(i) => RunningKeepsOpen(c, s, i);
      case Send(i) => RunningKeepsOpen(c, s, i);
      case Finish(i) => RunningKeepsOpen(c, s, i);
      case _ =>
    }
  }

  /** Every step keeps the invariant. */
  lemma StepInv(c: Config, s: State, a: Action)
    requires Inv(c, s) && Enabled(c, s, a)
    ensures Inv(c, Next(c, s, a))
  {
    if a.Send? { RunningKeepsOpen(c, s, a.worker); }
    StepCounted(c, s, a);
    StepPhased(c, s, a);
    StepConserves(c, s, a);
  }

  // ----- runs -----

  /** The state after a sequence of steps, if each was enabled. */
  ghost predicate Reaches(c: Config, actions: seq<Action>, s: State)
    decreases |actions|
  {
    if actions == [] then s == Init(c)
    else
      var k := |actions| - 1;
      exists t :: Reaches(c, actions[..k], t) && |t.workers| == |c.lists| && Enabled(c, t, actions[k])
          && s == Next(c, t, actions[k])
  }

  lemma {:induction false} ReachableInv(c: Config, actions: seq<Action>, s: State)
    requires Reaches(c, actions, s)
    ensures Inv(c, s)
    decreases |actions|
  {
    if actions == [] {
      InitInv(c);
    } else {
      var k := |actions| - 1;
      var t :| Reaches(c, actions[..k], t) && |t.workers| == |c.lists| && Enabled(c, t, actions[k])
          && s == Next(c, t, actions[k]);
      ReachableInv(c, actions[..k], t);
      StepInv(c, t, actions[k]);
    }
  }

  /** In no run does a worker send after the channel was closed, nor does anything else panic. */
  lemma NoSendAfterClose(c: Config, actions: seq<Action>, s: State, i: nat)
    requires Reaches(c, actions, s) && i < |c.lists|
    ensures !s.panicked
    ensures |s.workers| == |c.lists| && (s.closed ==> !Enabled(c, s, Send(i)))
  {
    ReachableInv(c, actions, s);
    NoneActive(s.workers);
  }

  /** When the collecting loop is over it has received exactly what all deployers returned. */
  lemma CollectedIsUnion(c: Config, actions: seq<Action>, s: State)
    requires Reaches(c, actions, s) && s.main.Finished?
    ensures multiset(s.collected) == Union(c.lists)
  {
    ReachableInv(c, actions, s);
    NoneActive(s.workers);
    NothingOutstanding(c.lists, s.workers);
  }

  /** Some step is possible until the loop is over, whatever the capacity of the channel, as long as it has any. */
  lemma NoDeadlock(c: Config, actions: seq<Action>, s: State) returns (a: Action)
    requires Reaches(c, actions, s) && !s.main.Finished? && c.capacity > 0
    ensures |s.workers| == |c.lists| && Enabled(c, s, a)
  {
    ReachableInv(c, actions, s);
    NoneActive(s.workers);
    if s.main.Spawning? {
      return if s.main.next < |c.lists| then Add else SpawnCloser;
    } else if s.main.Added? {
      return Spawn;
    } else if s.channel != [] {
      return Receive;
    } else if s.closed {
      return EndRange;
    } else if s.closer.Released? {
      return Close;
    } else if s.counter == 0 {
      return Release;
    } else {
      var i :| 0 <= i < |s.workers| && !s.workers[i].Idle? && !s.workers[i].Done?;
      if s.workers[i].Listing? { return List(i); }
      return if s.workers[i].rest == [] then Finish(i) else Send(i);
    }
  }

  // ----- every run ends -----

  function WorkerSteps(list: seq<Item>, w: Worker): nat {
    match w
    case Idle => 2 * |list| + 3
    case Listing => 2 * |list| + 2
    case Sending(rest) => 2 * |rest| + 1
    case Done => 0
  }

  function WorkSteps(lists: seq<seq<Item>>, workers: seq<Worker>): nat
    requires |lists| == |workers|
  {
    if lists == [] then 0
    else
      var k := |lists| - 1;
      WorkSteps(lists[..k], workers[..k]) + WorkerSteps(lists[k], workers[k])
  }

  function StepsLeft(c: Config, s: State): int
    requires |s.workers| == |c.lists|
  {
    (match s.main
     case Spawning(k) => 2 * (|c.lists| - k) + 3
     case Added(k) => 2 * (|c.lists| - k) + 2
     case Ranging => 1
     case Finished => 0)
    + (match s.closer
       case NotStarted => 3
       case Waiting => 2
       case Released => 1
       case Closed => 0)
    + |s.channel| + WorkSteps(c.lists, s.workers)
  }

  lemma {:induction false} WorkStepsUpdate(lists: seq<seq<Item>>, workers: seq<Worker>, i: nat, w: Worker)
    requires i < |workers| == |lists|
    ensures WorkSteps(lists, workers[i := w])
            == WorkSteps(lists, workers) - WorkerSteps(lists[i], workers[i]) + WorkerSteps(lists[i], w)
  {
    var k := |workers| - 1;
    if i == k {
      assert workers[i := w][..k] == workers[..k];
    } else {
      assert workers[i := w][..k] == workers[..k][i := w];
      WorkStepsUpdate(lists[..k], workers[..k], i, w);
    }
  }

  lemma StepsDecrease(c: Config, s: State, a: Action)
    requires |s.workers| == |c.lists| && Phased(c, s) && Counted(s) && Enabled(c, s, a)
    ensures StepsLeft(c, Next(c, s, a)) < StepsLeft(c, s)
  {
    match a {
      case Spawn => WorkStepsUpdate(c.lists, s.workers, s.main.next, Listing);
      case List(i) => WorkStepsUpdate(c.lists, s.workers, i, Sending(c.lists[i]));
      case Send(i) =>
        RunningKeepsOpen(c, s, i);
        WorkStepsUpdate(c.lists, s.workers, i, Sending(s.workers[i].rest[1..]));
      case Finish(i) => WorkStepsUpdate(c.lists, s.workers, i, Done);
      case _ =>
    }
  }

  lemma StepsRemain(c: Config, actions: seq<Action>, s: State)
    requires Reaches(c, actions, s)
    ensures |s.workers| == |c.lists| && 0 <= StepsLeft(c, s)
  {
    ReachableInv(c, actions, s);
  }

  /** The state before the last step had more steps left. */
  lemma BeforeLast(c: Config, actions: seq<Action>, s: State) returns (t: State)
    requires Reaches(c, actions, s) && actions != []
    ensures Reaches(c, actions[..|actions| - 1], t)
    ensures |t.workers| == |c.lists| == |s.workers| && StepsLeft(c, s) < StepsLeft(c, t)
  {
    var k := |actions| - 1;
    t :| Reaches(c, actions[..k], t) && |t.workers| == |c.lists| && Enabled(c, t, actions[k])
        && s == Next(c, t, actions[k]);
    StepsRemain(c, actions, s);
    ReachableInv(c, actions[..k], t);
    StepsDecrease(c, t, actions[k]);
  }

  /** No interleaving runs longer than this; together with the absence of deadlocks, every run ends with the union. */
  lemma {:induction false} RunsAreBounded(c: Config, actions: seq<Action>, s: State)
    requires Reaches(c, actions, s)
    ensures |s.workers| == |c.lists| && 0 <= StepsLeft(c, s) && |actions| + StepsLeft(c, s) <= StepsLeft(c, Init(c))
    decreases |actions|
  {
    StepsRemain(c, actions, s);
    if actions != [] {
      var t := BeforeLast(c, actions, s);
      RunsAreBounded(c, actions[..|actions| - 1], t);
    }
  }

  /** Every interleaving can be prolonged only so far, and where it stops for good, everything has been collected. */
  lemma RunsEndWithUnion(c: Config, actions: seq<Action>, s: State)
    requires Reaches(c, actions, s) && c.capacity > 0
    requires |s.workers| == |c.lists| ==> forall a: Action :: !Enabled(c, s, a)
    ensures s.main.Finished? && multiset(s.collected) == Union(c.lists)
    ensures |actions| <= StepsLeft(c, Init(c))
  {
    RunsAreBounded(c, actions, s);
    if !s.main.Finished? {
      var a := NoDeadlock(c, actions, s);
      assert false;
    }
    CollectedIsUnion(c, actions, s);
  }
}
