/** Waiting for a Couchbase cluster under the autonomous operator to stay available for a while. */
module StabilityWindow {

  datatype Condition = Condition(kind: string, status: string)

  datatype Status = Status(conditions: seq<Condition>, size: int)

  /** What one poll read; Unreadable if the resource could not be fetched or parsed. */
  datatype Reading = Unreadable | Read(status: Status)

  /** A poll: when it started, when its reading was judged, and what it read. */
  datatype Poll = Poll(started: nat, at: nat, reading: Reading)

  /** An answer of the cluster, and when it came. */
  datatype Sample = Sample(time: nat, reading: Reading)

  datatype Outcome = Success | TimedOut | Failed

  /** Milliseconds. */
  const POLL_INTERVAL := 500
  const STABILITY := 15000
  const MAX_WAIT := 20 * 60 * 1000

  const SAYS_YES := "True"
  const POSITIVE: seq<string> := ["Available", "Balanced"]
  const NEGATIVE: seq<string> :=
    ["Scaling", "ScalingUp", "ScalingDown", "Upgrading", "Hibernating", "Error", "Migrating", "Rebalancing",
     "BucketMigrating"]

  // ----- judging a status -----

  /** The first condition of this kind has status "True". */
  ghost predicate Holds(conditions: seq<Condition>, kind: string) {
    exists i | 0 <= i < |conditions| ::
      && conditions[i] == Condition(kind, SAYS_YES)
      && forall j | 0 <= j < i :: conditions[j].kind != kind
  }

  /** The condition is known and does not speak against the cluster. */
  predicate Tolerated(c: Condition, positive: seq<string>, negative: seq<string>) {
    (c.kind in positive || c.kind in negative) && (c.kind in negative ==> c.status != SAYS_YES)
  }

  ghost predicate AvailableGiven(s: Status, expectedSize: int, positive: seq<string>, negative: seq<string>) {
    && (forall kind | kind in positive :: Holds(s.conditions, kind))
    && (forall c | c in s.conditions :: Tolerated(c, positive, negative))
    && (expectedSize > 0 ==> s.size == expectedSize)
  }

  ghost predicate Available(s: Status, expectedSize: int) {
    AvailableGiven(s, expectedSize, POSITIVE, NEGATIVE)
  }

  method HasCondition(conditions: seq<Condition>, kind: string) returns (found: bool)
    ensures found <==> Holds(conditions, kind)
  {
    for i := 0 to |conditions|
      invariant forall j | 0 <= j < i :: conditions[j].kind != kind
    {
      if conditions[i].kind == kind {
        return conditions[i].status == SAYS_YES;
      }
    }
    found := false;
  }

  method HasAllConditions(conditions: seq<Condition>, kinds: seq<string>) returns (all: bool)
    ensures all <==> forall kind | kind in kinds :: Holds(conditions, kind)
  {
    for i := 0 to |kinds|
      invariant forall kind | kind in kinds[..i] :: Holds(conditions, kind)
    {
      var found := HasCondition(conditions, kinds[i]);
      if !found { return false; }
    }
    assert kinds[..|kinds|] == kinds;
    all := true;
  }

  /** None of the conditions is a bad one that holds. */
  method HasNoBad(conditions: seq<Condition>, negative: seq<string>) returns (none: bool)
    ensures none <==> forall c | c in conditions :: c.kind in negative ==> c.status != SAYS_YES
  {
    none := true;
    for i := 0 to |conditions|
      invariant none <==> forall c | c in conditions[..i] :: c.kind in negative ==> c.status != SAYS_YES
    {
      assert conditions[i] in conditions[..i + 1];
      if conditions[i].kind in negative && conditions[i].status == SAYS_YES { none := false; }
    }
    assert conditions[..|conditions|] == conditions;
  }

  method UnknownKinds(conditions: seq<Condition>, known: seq<string>) returns (unknown: seq<string>)
    ensures unknown == [] <==> forall c | c in conditions :: c.kind in known
  {
    unknown := [];
    for i := 0 to |conditions|
      invariant unknown == [] <==> forall c | c in conditions[..i] :: c.kind in known
    {
      assert conditions[i] in conditions[..i + 1];
      if conditions[i].kind !in known { unknown := unknown + [conditions[i].kind]; }
    }
    assert conditions[..|conditions|] == conditions;
  }

  /** Checks the required conditions, then looks for bad ones, for unknown ones and at the size. */
  method JudgeGiven(s: Status, expectedSize: int, positive: seq<string>, negative: seq<string>)
    returns (available: bool)
    ensures available <==> AvailableGiven(s, expectedSize, positive, negative)
  {
    available := HasAllConditions(s.conditions, positive);
    var noneBad := HasNoBad(s.conditions, negative);
    if !noneBad { available := false; }
    var unknown := UnknownKinds(s.conditions, positive + negative);
    if |unknown| > 0 { available := false; }
    if expectedSize > 0 && s.size != expectedSize { available := false; }
  }

  // ----- what a log of polls says -----

  ghost predicate Good(p: Poll, expectedSize: int) {
    p.reading.Read? && Available(p.reading.status, expectedSize)
  }

  /** The latest poll ends a window of at least 15 seconds in which every poll found the cluster available. */
  ghost predicate Settled(polls: seq<Poll>, start: nat, expectedSize: int) {
    polls != [] &&
    var end := polls[|polls| - 1].at;
    && end >= start + STABILITY
    && forall p | p in polls && p.at > end - STABILITY :: Good(p, expectedSize)
  }

  /** The first condition of this kind says "True". */
  ghost predicate Says(conditions: seq<Condition>, kind: string) {
    exists i | 0 <= i < |conditions| :: conditions[i].kind == kind && conditions[i].status == "True"
      && forall j | 0 <= j < i :: conditions[j].kind != kind
  }

  /** What the operator has to report for an available cluster. */
  ghost predicate Healthy(s: Status, expectedSize: int) {
    && Says(s.conditions, "Available") && Says(s.conditions, "Balanced")
    && (forall c | c in s.conditions && c.kind !in ["Available", "Balanced"] ::
         && c.kind in ["Scaling", "ScalingUp", "ScalingDown", "Upgrading", "Hibernating", "Error", "Migrating",
                       "Rebalancing", "BucketMigrating"]
         && c.status != "True")
    && (expectedSize > 0 ==> s.size == expectedSize)
  }

  lemma HoldsMeans(conditions: seq<Condition>, kind: string)
    ensures Holds(conditions, kind) <==> Says(conditions, kind)
  {
  }

  lemma AvailableMeans(s: Status, expectedSize: int)
    ensures Available(s, expectedSize) <==> Healthy(s, expectedSize)
  {
    HoldsMeans(s.conditions, "Available");
    HoldsMeans(s.conditions, "Balanced");
    assert forall kind :: kind in POSITIVE <==> kind == "Available" || kind == "Balanced";
    assert forall kind | kind in NEGATIVE :: kind !in POSITIVE;
  }

  /** A window is stable if and only if it lasted for 15 seconds at least and every poll in it read a healthy status. */
  lemma SettledMeans(polls: seq<Poll>, start: nat, expectedSize: int)
    requires polls != []
    ensures var end := polls[|polls| - 1].at;
            Settled(polls, start, expectedSize)
            <==> && end >= start + 15000
                 && forall p | p in polls && p.at > end - 15000 ::
                      p.reading.Read? && Healthy(p.reading.status, expectedSize)
  {
    forall p | p in polls && p.reading.Read?
      ensures Available(p.reading.status, expectedSize) <==> Healthy(p.reading.status, expectedSize)
    {
      AvailableMeans(p.reading.status, expectedSize);
    }
  }

  /** No poll before the latest one ended such a window. */
  ghost predicate NotBefore(polls: seq<Poll>, start: nat, expectedSize: int) {
    forall k | 0 < k < |polls| :: !Settled(polls[..k], start, expectedSize)
  }

  /** Each poll starts at least one interval after the one before it ended, and none is later than `now`. */
  ghost predicate Paced(polls: seq<Poll>, start: nat, now: nat) {
    && (forall p | p in polls :: start <= p.started <= p.at <= now)
    && forall i, j | 0 <= i < j < |polls| :: polls[j].started >= polls[i].at + POLL_INTERVAL
  }

  /** The pause after the last poll is over. */
  ghost predicate Rested(polls: seq<Poll>, start: nat, now: nat) {
    polls == [] || (now >= POLL_INTERVAL && Paced(polls, start, now - POLL_INTERVAL))
  }

  /** Each poll judged what the cluster answered while it was made. */
  ghost predicate Recorded(polls: seq<Poll>, samples: seq<Sample>) {
    && |polls| == |samples|
    && forall i | 0 <= i < |polls| ::
         polls[i].reading == samples[i].reading && polls[i].started <= samples[i].time <= polls[i].at
  }

  /** `lastFailure` is the time of the latest poll that found the cluster unavailable, or the start. */
  ghost predicate Tracks(polls: seq<Poll>, start: nat, expectedSize: int, lastFailure: nat) {
    && lastFailure >= start
    && (lastFailure == start || exists p :: p in polls && p.at == lastFailure && !Good(p, expectedSize))
    && forall p | p in polls && !Good(p, expectedSize) :: p.at <= lastFailure
  }

  /** One remembered time decides about the whole window. */
  lemma WindowByLastFailure(polls: seq<Poll>, start: nat, expectedSize: int, lastFailure: nat)
    requires polls != [] && Tracks(polls, start, expectedSize, lastFailure)
    ensures Settled(polls, start, expectedSize) <==> polls[|polls| - 1].at - lastFailure >= STABILITY
  {
  }

  /** The time to remember after one more poll. */
  lemma TrackPoll(polls: seq<Poll>, latest: Poll, start: nat, expectedSize: int, lastFailure: nat)
    requires Tracks(polls, start, expectedSize, lastFailure) && latest.at >= lastFailure
    ensures Tracks(polls + [latest], start, expectedSize, if Good(latest, expectedSize) then lastFailure else latest.at)
  {
  }

  lemma PacedExtend(polls: seq<Poll>, latest: Poll, start: nat, before: nat, now: nat)
    requires Rested(polls, start, before) && start <= before <= latest.started <= latest.at <= now
    ensures Paced(polls + [latest], start, now)
  {
  }

  lemma NotBeforeExtend(polls: seq<Poll>, latest: Poll, start: nat, expectedSize: int)
    requires NotBefore(polls, start, expectedSize) && !Settled(polls, start, expectedSize)
    ensures NotBefore(polls + [latest], start, expectedSize)
  {
    forall k | 0 < k < |polls + [latest]| ensures !Settled((polls + [latest])[..k], start, expectedSize) {
      assert (polls + [latest])[..k] == polls[..k];
      assert polls[..|polls|] == polls;
    }
  }

  /** The wait goes on: nothing has settled it, and the next poll may start at `rested`. */
  ghost predicate Undecided(polls: seq<Poll>, samples: seq<Sample>, start: nat, expectedSize: int, lastFailure: nat,
                            rested: nat) {
    && start <= rested && lastFailure <= rested
    && Tracks(polls, start, expectedSize, lastFailure) && Recorded(polls, samples)
    && NotBefore(polls, start, expectedSize) && !Settled(polls, start, expectedSize)
    && Rested(polls, start, rested)
  }

  /** What a wait shows, whatever its outcome. */
  ghost predicate Watched(polls: seq<Poll>, samples: seq<Sample>, start: nat, expectedSize: int, now: nat) {
    Paced(polls, start, now) && Recorded(polls, samples) && NotBefore(polls, start, expectedSize)
  }

  lemma WatchedSince(polls: seq<Poll>, samples: seq<Sample>, start: nat, expectedSize: int, lastFailure: nat,
                     rested: nat, now: nat)
    requires Undecided(polls, samples, start, expectedSize, lastFailure, rested) && rested <= now
    ensures Undecided(polls, samples, start, expectedSize, lastFailure, now)
    ensures Watched(polls, samples, start, expectedSize, now)
  {
  }

  lemma FitsIn(count: nat, time: nat)
    requires 500 * count <= time
    ensures count <= time / 500
  {
  }

  // ----- waiting -----

  /** What the condition of the wait answered. */
  datatype Answer = Error | No | Yes

  /** The clock, the cluster and the state that the condition keeps between polls. */
  class Watch {
    const expectedSize: int
    var now: nat
    var lastFailure: nat
    ghost var polls: seq<Poll>
    ghost var samples: seq<Sample>
    ghost var slept: nat

    constructor (expectedSize: int, now: nat)
      ensures this.expectedSize == expectedSize && this.now == now && lastFailure == now
      ensures polls == [] && samples == [] && slept == 0
    {
      this.expectedSize := expectedSize;
      this.now := now;
      lastFailure := now;
      polls, samples, slept := [], [], 0;
    }

    method Clock() returns (t: nat)
      modifies `now
      ensures t == now && now >= old(now)
    {
      var elapsed: int := *;
      if elapsed > 0 { now := now + elapsed; }
      t := now;
    }

    method ReadCluster() returns (r: Reading)
      modifies `now, `samples
      ensures samples == old(samples) + [Sample(now, r)] && now >= old(now)
    {
      r := *;
      var t := Clock();
      samples := samples + [Sample(t, r)];
    }

    method Sleep(duration: nat)
      modifies `now, `slept
      ensures now >= old(now) + duration && slept == old(slept) + duration
    {
      var t := Clock();
      now := now + duration;
      slept := slept + duration;
    }

    /** Reads the cluster once. The answer is yes if it has been available for long enough. */
    method Check(ghost start: nat) returns (answer: Answer, ghost latest: Poll)
      requires Tracks(polls, start, expectedSize, lastFailure) && lastFailure <= now && Recorded(polls, samples)
      modifies this
      ensures old(samples) <= samples && Recorded(polls, samples)
      ensures polls == old(polls) + [latest] && old(now) <= latest.started <= latest.at <= now && slept == old(slept)
      ensures answer.Error? <==> latest.reading.Unreadable?
      ensures !answer.Error? ==> Tracks(polls, start, expectedSize, lastFailure) && lastFailure <= now
      ensures !answer.Error? ==> (answer.Yes? <==> latest.at - lastFailure >= STABILITY)
    {
      var started := Clock();
      var reading := ReadCluster();
      if reading.Unreadable? {
        latest := Poll(started, now, reading);
        polls := polls + [latest];
        return Error, latest;
      }
      var available := JudgeGiven(reading.status, expectedSize, POSITIVE, NEGATIVE);
      var at := Clock();
      latest := Poll(started, at, reading);
      TrackPoll(polls, latest, start, expectedSize, lastFailure);
      polls := polls + [latest];
      if !available {
        lastFailure := at;
        return No, latest;
      }
      answer := if at - lastFailure < STABILITY then No else Yes;
    }

    /** One more poll: the answer is yes exactly if it settles the wait. */
    method PollOnce(ghost start: nat) returns (answer: Answer)
      requires Undecided(polls, samples, start, expectedSize, lastFailure, now)
      modifies this
      ensures |polls| == |old(polls)| + 1 && old(now) <= now && slept == old(slept)
      ensures Watched(polls, samples, start, expectedSize, now)
      ensures answer.Error? <==> polls[|polls| - 1].reading.Unreadable?
      ensures answer.Yes? <==> Settled(polls, start, expectedSize)
      ensures answer.No? ==> Undecided(polls, samples, start, expectedSize, lastFailure, now + POLL_INTERVAL)
    {
      ghost var before, pause := polls, now;
      ghost var latest;
      answer, latest := Check(start);
      NotBeforeExtend(before, latest, start, expectedSize);
      PacedExtend(before, latest, start, pause, now);
      if answer.Error? {
        assert !Good(latest, expectedSize);
      } else {
        WindowByLastFailure(polls, start, expectedSize, lastFailure);
      }
    }

    /** The pause between two polls. */
    method Pause(ghost start: nat)
      requires Undecided(polls, samples, start, expectedSize, lastFailure, now + POLL_INTERVAL)
      modifies `now, `slept
      ensures now >= old(now) + 500 && slept == old(slept) + 500
      ensures Undecided(polls, samples, start, expectedSize, lastFailure, now)
      ensures Watched(polls, samples, start, expectedSize, now)
    {
      ghost var rested := now + POLL_INTERVAL;
      Sleep(POLL_INTERVAL);
      var t := Clock();
      WatchedSince(polls, samples, start, expectedSize, lastFailure, rested, now);
    }

    /** Polls until the condition answers, with a pause after each poll, for as long as the wait is allowed to take. */
    method WaitForFunc(maxWait: nat, ghost start: nat) returns (r: Outcome)
      requires polls == [] && samples == [] && slept == 0 && lastFailure == start == now
      modifies this
      ensures r.Success? <==> Settled(polls, start, expectedSize)
      ensures r.Failed? <==> polls != [] && polls[|polls| - 1].reading.Unreadable?
      ensures r.TimedOut? ==> now > start + maxWait
      ensures Watched(polls, samples, start, expectedSize, now)
      ensures 0 < |polls| <= maxWait / 500 + 1
      ensures slept == 500 * if r.TimedOut? then |polls| else |polls| - 1
    {
      var began := Clock();
      var expiry := began + maxWait;
      while true
        invariant start <= began <= now && expiry == began + maxWait
        invariant now >= began + 500 * |polls| && (polls == [] || now <= expiry) && slept == 500 * |polls|
        invariant |polls| <= maxWait / 500
        invariant Undecided(polls, samples, start, expectedSize, lastFailure, now)
        decreases expiry - now
      {
        var answer := PollOnce(start);
        if answer.Error? { return Failed; }
        if answer.Yes? { return Success; }
        Pause(start);
        if now > expiry { return TimedOut; }
        assert |polls| <= maxWait / 500 by { FitsIn(|polls|, maxWait); }
      }
    }
  }

  /** The wait for an available cluster takes 20 minutes at most: it succeeds at the first poll that ends a stable
      window. Polls are at least half a second apart. */
  method WaitCouchbaseClusterAvailable(expectedSize: int, now: nat) returns (r: Outcome, watch: Watch)
    ensures fresh(watch) && watch.expectedSize == expectedSize
    ensures 0 < |watch.polls| <= 2401
    ensures r.Success? <==> Settled(watch.polls, now, expectedSize)
    ensures r.Failed? <==> watch.polls[|watch.polls| - 1].reading.Unreadable?
    ensures Watched(watch.polls, watch.samples, now, expectedSize, watch.now)
    ensures forall i, j | 0 <= i < j < |watch.polls| :: watch.polls[j].started >= watch.polls[i].at + 500
    ensures watch.slept == 500 * if r.TimedOut? then |watch.polls| else |watch.polls| - 1
    ensures r.TimedOut? ==> watch.now > now + 1_200_000
  {
    watch := new Watch(expectedSize, now);
    r := watch.WaitForFunc(MAX_WAIT, now);
  }
}
