/** Whole runs of failure counters sharing one Redis: checks, records and resets
    interleaved in any order, with attempts in flight between them. */
module FailureRuns {
  import opened Results
  import opened Redis
  import opened HitStore
  import opened RateLimit
  import opened RateLimitRuns
  import opened RateLimitLaws
  import opened Failures

  /** An attempt that passed its check ends in a record, in a reset, or in
      neither; expiry may take a key whose deadline has come. */
  datatype Step =
    | Check(key: string, at: nat)
    | Record(key: string, at: nat)
    | Reset(key: string, at: nat)
    | Leave(key: string, at: nat)
    | Lapse(name: string, at: nat)

  predicate InOrder(steps: seq<Step>) {
    forall i, j :: 0 <= i < j < |steps| ==> steps[i].at <= steps[j].at
  }

  predicate Until(steps: seq<Step>, now: nat) {
    forall i :: 0 <= i < |steps| ==> steps[i].at <= now
  }

  /** Which tiers count a key: each counter has its own. */
  type Tiering = string -> seq<Tier>

  ghost predicate AllWindowed(tiersOf: Tiering) {
    forall key :: Windowed(tiersOf(key))
  }

  // -------------------------------------------------------------- two runs

  function Apply(tiersOf: Tiering, before: World, step: Step): World {
    match step
    case Check(key, at) =>
      before.(answers := before.answers + [Some(CheckKey(before.db, key, tiersOf(key), at))])
    case Record(key, at) => World(RecordFailure(before.db, key, tiersOf(key), at), before.answers + [None])
    case Reset(key, _) => World(Forget(before.db, key, tiersOf(key)), before.answers + [None])
    case Leave(_, _) => before.(answers := before.answers + [None])
    case Lapse(name, at) => World(Evict(before.db, name, at), before.answers + [None])
  }

  function Happened(tiersOf: Tiering, steps: seq<Step>): World {
    if steps == [] then World(EMPTY, [])
    else Apply(tiersOf, Happened(tiersOf, steps[..|steps| - 1]), steps[|steps| - 1])
  }

  function PlainApply(tiersOf: Tiering, before: Plain, step: Step): Plain {
    match step
    case Check(key, at) =>
      before.(answers := before.answers + [Some(PlainVerdict(LogOf(before.logs, key), tiersOf(key), at))])
    case Record(key, at) => Plain(before.logs[key := LogOf(before.logs, key) + [at]], before.answers + [None])
    case Reset(key, _) => Plain(before.logs[key := []], before.answers + [None])
    case Leave(_, _) => before.(answers := before.answers + [None])
    case Lapse(_, _) => before.(answers := before.answers + [None])
  }

  function PlainHappened(tiersOf: Tiering, steps: seq<Step>): (plain: Plain)
    ensures |plain.answers| == |steps|
  {
    if steps == [] then Plain(map[], [])
    else PlainApply(tiersOf, PlainHappened(tiersOf, steps[..|steps| - 1]), steps[|steps| - 1])
  }

  lemma LastStep(tiersOf: Tiering, front: seq<Step>, last: Step)
    ensures PlainHappened(tiersOf, front + [last]) == PlainApply(tiersOf, PlainHappened(tiersOf, front), last)
  {
    hide PlainApply;
    assert (front + [last])[..|front|] == front;
  }

  ghost predicate Faithful(db: Db, tiersOf: Tiering, logs: map<string, seq<nat>>, now: nat) {
    forall key :: KeyTracks(db, FailureCounts, tiersOf(key), key, LogOf(logs, key), now)
  }

  lemma FaithfulLater(db: Db, tiersOf: Tiering, logs: map<string, seq<nat>>, now: nat, later: nat)
    requires Faithful(db, tiersOf, logs, now) && now <= later
    ensures Faithful(db, tiersOf, logs, later)
  {
    hide KeyTracks;
    forall key ensures KeyTracks(db, FailureCounts, tiersOf(key), key, LogOf(logs, key), later) {
      KeyTracksLater(db, FailureCounts, tiersOf(key), key, LogOf(logs, key), now, later);
    }
  }

  lemma EmptyIsFaithful(tiersOf: Tiering, now: nat)
    ensures Faithful(EMPTY, tiersOf, map[], now)
  {
    forall key ensures KeyTracks(EMPTY, FailureCounts, tiersOf(key), key, [], now) {
      forall i | 0 <= i < |tiersOf(key)|
        ensures var w := tiersOf(key)[i].window;
                Tracks(Look(EMPTY, FailureCounts, w, key), [], w, Weight(tiersOf(key), w), 0, now)
      {
        BareTracks(tiersOf(key)[i].window, Weight(tiersOf(key), tiersOf(key)[i].window), now);
      }
    }
  }

  lemma StepIsFaithful(tiersOf: Tiering, world: World, plain: Plain, step: Step)
    requires AllWindowed(tiersOf) && world.answers == plain.answers
    requires Faithful(world.db, tiersOf, plain.logs, step.at)
    ensures Apply(tiersOf, world, step).answers == PlainApply(tiersOf, plain, step).answers
    ensures Faithful(Apply(tiersOf, world, step).db, tiersOf, PlainApply(tiersOf, plain, step).logs, step.at)
  {
    hide KeyTracks, CheckKey, PlainVerdict, RecordFailure, Forget, Evict;
    var world', plain' := Apply(tiersOf, world, step), PlainApply(tiersOf, plain, step);
    if step.Check? {
      CheckReadsTheLog(world.db, step.key, tiersOf(step.key), step.at, LogOf(plain.logs, step.key));
    }
    forall key ensures KeyTracks(world'.db, FailureCounts, tiersOf(key), key, LogOf(plain'.logs, key), step.at) {
      var log := LogOf(plain.logs, key);
      assert KeyTracks(world.db, FailureCounts, tiersOf(key), key, log, step.at);
      match step
      case Check(_, _) =>
      case Leave(_, _) =>
      case Lapse(name, at) => KeyTracksEvict(world.db, name, FailureCounts, tiersOf(key), key, log, at);
      case Record(k, at) =>
        if key == k {
          RecordLogsTheFailure(world.db, key, tiersOf(key), at, log);
        } else {
          OtherKeysKeepTrack(world.db, k, tiersOf(k), at, tiersOf(key), key, log);
        }
      case Reset(k, at) =>
        if key == k {
          ResetEmptiesTheLog(world.db, key, tiersOf(key), at);
        } else {
          OtherKeysKeepTrack(world.db, k, tiersOf(k), at, tiersOf(key), key, log);
        }
    }
  }

  /** Every check in every interleaving answers what the log of recorded and not
      yet forgotten failures answers. */
  lemma {:induction false} ChecksReadTheFailures(tiersOf: Tiering, steps: seq<Step>, now: nat)
    requires AllWindowed(tiersOf) && InOrder(steps) && Until(steps, now)
    ensures Happened(tiersOf, steps).answers == PlainHappened(tiersOf, steps).answers
    ensures Faithful(Happened(tiersOf, steps).db, tiersOf, PlainHappened(tiersOf, steps).logs, now)
  {
    hide Faithful, Apply, PlainApply;
    if steps == [] {
      EmptyIsFaithful(tiersOf, now);
    } else {
      var front, last := steps[..|steps| - 1], steps[|steps| - 1];
      ChecksReadTheFailures(tiersOf, front, last.at);
      StepIsFaithful(tiersOf, Happened(tiersOf, front), PlainHappened(tiersOf, front), last);
      FaithfulLater(Happened(tiersOf, steps).db, tiersOf, PlainHappened(tiersOf, steps).logs, last.at, now);
    }
  }

  // ------------------------------------------------------ attempts in flight

  function Entered(step: Step, answer: Option<Verdict>, key: string): int {
    if step.Lapse? || step.key != key then 0
    else if step.Check? then (if answer.Some? && answer.value.allowed then 1 else 0)
    else -1
  }

  /** Attempts on a key that passed their check and have not ended. */
  function InFlight(steps: seq<Step>, answers: seq<Option<Verdict>>, key: string): int
    requires |steps| == |answers|
  {
    if steps == [] then 0
    else
      var n := |steps| - 1;
      InFlight(steps[..n], answers[..n], key) + Entered(steps[n], answers[n], key)
  }

  /** Only attempts in flight end, and never more than `most` are in flight. */
  predicate AtMostInFlight(steps: seq<Step>, answers: seq<Option<Verdict>>, key: string, most: nat)
    requires |steps| == |answers|
  {
    forall i :: 0 <= i <= |steps| ==> 0 <= InFlight(steps[..i], answers[..i], key) <= most
  }

  lemma PlainFront(tiersOf: Tiering, steps: seq<Step>, key: string, most: nat)
    requires steps != [] && AtMostInFlight(steps, PlainHappened(tiersOf, steps).answers, key, most)
    ensures var n := |steps| - 1;
            var before, after := PlainHappened(tiersOf, steps[..n]), PlainHappened(tiersOf, steps);
            && after == PlainApply(tiersOf, before, steps[n])
            && after.answers[..n] == before.answers
            && AtMostInFlight(steps[..n], before.answers, key, most)
            && InFlight(steps, after.answers, key)
               == InFlight(steps[..n], before.answers, key) + Entered(steps[n], after.answers[n], key)
            && 0 <= InFlight(steps, after.answers, key) <= most
  {
    var n := |steps| - 1;
    var before, after := PlainHappened(tiersOf, steps[..n]), PlainHappened(tiersOf, steps);
    assert after == PlainApply(tiersOf, before, steps[n]);
    hide PlainHappened, PlainVerdict;
    assert after.answers[..n] == before.answers;
    assert steps[..|steps|] == steps && after.answers[..|steps|] == after.answers;
    forall i | 0 <= i <= n ensures 0 <= InFlight(steps[..n][..i], before.answers[..i], key) <= most {
      assert steps[..n][..i] == steps[..i] && before.answers[..i] == after.answers[..i];
    }
  }

  predicate RoomAt(tiers: seq<Tier>, tier: Tier, held: nat) {
    Weight(tiers, tier.window) * held < tier.limit
  }

  /** Live failures and attempts in flight together never exceed what the last
      check that passed saw, by more than may be in flight at once. */
  lemma {:induction false} FlightsAreBounded(tiersOf: Tiering, steps: seq<Step>, key: string, tier: Tier,
                                             most: nat, now: nat) returns (seen: nat)
    requires AllWindowed(tiersOf) && Until(steps, now) && InOrder(steps)
    requires tier in tiersOf(key) && tier.limit >= 1
    requires AtMostInFlight(steps, PlainHappened(tiersOf, steps).answers, key, most)
    ensures var plain := PlainHappened(tiersOf, steps);
            && RoomAt(tiersOf(key), tier, seen)
            && CountAfter(LogOf(plain.logs, key), now - tier.window) + InFlight(steps, plain.answers, key)
               <= seen + most
  {
    hide PlainHappened, PlainVerdict, CountAfter, InFlight, AtMostInFlight, Weight, RoomAt;
    if steps == [] {
      NothingHappened(tiersOf, key, tier, now);
      seen := 0;
    } else {
      var front, last := steps[..|steps| - 1], steps[|steps| - 1];
      PlainFront(tiersOf, steps, key, most);
      seen := FlightsAreBounded(tiersOf, front, key, tier, most, last.at);
      var before, after := PlainHappened(tiersOf, front), PlainHappened(tiersOf, steps);
      var log := LogOf(before.logs, key);
      CountIsAntitone(log, last.at - tier.window, now - tier.window);
      if Entered(last, after.answers[|front|], key) == 1 {
        PassedSawRoom(log, tiersOf(key), tier, last.at);
        seen := CountAfter(log, last.at - tier.window);
      } else if last.Record? && last.key == key {
        CountOfAppended(log, last.at, now - tier.window);
      } else if last.Reset? && last.key == key {
        NoCount(now - tier.window);
      }
    }
  }

  lemma NoCount(bound: int)
    ensures CountAfter([], bound) == 0
  {
  }

  lemma NothingHappened(tiersOf: Tiering, key: string, tier: Tier, now: nat)
    requires tier.limit >= 1
    ensures var plain := PlainHappened(tiersOf, []);
            && RoomAt(tiersOf(key), tier, 0)
            && CountAfter(LogOf(plain.logs, key), now - tier.window) == 0 == InFlight([], plain.answers, key)
  {
  }

  lemma PassedSawRoom(log: seq<nat>, tiers: seq<Tier>, tier: Tier, now: nat)
    requires Windowed(tiers) && tier in tiers && PlainVerdict(log, tiers, now).allowed
    ensures RoomAt(tiers, tier, CountAfter(log, now - tier.window))
  {
    VerdictMeansRoom(log, tiers, now);
    hide PlainVerdict, Weight, CountAfter;
    assert !Full(log, tiers, tier, now);
  }

  /** However checks, records and resets interleave, with at most C attempts in
      flight on a key no tier with a window of its own ever stores more live
      failures than its limit plus C minus one. */
  lemma StoredFailuresAreBounded(tiersOf: Tiering, steps: seq<Step>, key: string, tier: Tier, most: nat, now: nat)
    requires AllWindowed(tiersOf) && Until(steps, now) && InOrder(steps)
    requires tier in tiersOf(key) && tier.limit >= 1 && DistinctWindows(tiersOf(key))
    requires var answers := Happened(tiersOf, steps).answers;
             |answers| == |steps| && AtMostInFlight(steps, answers, key, most)
    ensures var stored := Look(Happened(tiersOf, steps).db, FailureCounts, tier.window, key).Members();
            Later(stored, now - tier.window) <= tier.limit + most - 1
  {
    hide Happened, PlainHappened, Look, Later, CountAfter, InFlight, DistinctWindows, Weight;
    ChecksReadTheFailures(tiersOf, steps, now);
    var seen := FlightsAreBounded(tiersOf, steps, key, tier, most, now);
    WeightOfTier(tiersOf(key), tier);
    StoredIsCounted(Happened(tiersOf, steps).db, tiersOf, PlainHappened(tiersOf, steps).logs, key, tier, now);
    assert InFlight(steps[..|steps|], Happened(tiersOf, steps).answers[..|steps|], key) >= 0;
    assert steps[..|steps|] == steps;
    assert Happened(tiersOf, steps).answers[..|steps|] == Happened(tiersOf, steps).answers;
  }

  lemma StoredIsCounted(db: Db, tiersOf: Tiering, logs: map<string, seq<nat>>, key: string, tier: Tier, now: nat)
    requires Faithful(db, tiersOf, logs, now) && tier in tiersOf(key)
    ensures Later(Look(db, FailureCounts, tier.window, key).Members(), now - tier.window)
            == Weight(tiersOf(key), tier.window) * CountAfter(LogOf(logs, key), now - tier.window)
  {
    hide Later, Weight, CountAfter, Look;
    assert KeyTracks(db, FailureCounts, tiersOf(key), key, LogOf(logs, key), now);
    var i :| 0 <= i < |tiersOf(key)| && tiersOf(key)[i] == tier;
  }
}
