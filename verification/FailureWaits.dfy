/** What the failure counter's wait is worth once it is over. Failures are recorded
    after their check, so more of them may be stored than the limit; then the
    oldest leaving is not enough. */
module FailureWaits {
  import opened Results
  import opened HitStore
  import opened RateLimit
  import opened RateLimitRuns
  import opened RateLimitLaws
  import opened RateLimitRetry
  import opened Failures
  import opened FailureRuns
  import opened LoginGuard

  /** Nothing is recorded against the key; it may be forgotten. */
  predicate NoneRecorded(steps: seq<Step>, key: string) {
    forall i :: 0 <= i < |steps| ==> steps[i] != Record(key, steps[i].at)
  }

  lemma {:induction false} LogOnlyForgets(tiersOf: Tiering, steps: seq<Step>, more: seq<Step>, key: string)
    requires NoneRecorded(more, key)
    ensures var before, after := PlainHappened(tiersOf, steps), PlainHappened(tiersOf, steps + more);
            || LogOf(after.logs, key) == LogOf(before.logs, key)
            || (LogOf(after.logs, key) == [] && !NeverForgotten(more, key))
  {
    hide PlainHappened, PlainVerdict;
    if more == [] {
      assert steps + more == steps;
    } else {
      var n := |more| - 1;
      LogOnlyForgets(tiersOf, steps, more[..n], key);
      Continue(tiersOf, steps, more);
      assert !NeverForgotten(more[..n], key) ==> !NeverForgotten(more, key) by {
        assert forall i :: 0 <= i < n ==> more[..n][i] == more[i];
      }
    }
  }

  predicate NeverForgotten(steps: seq<Step>, key: string) {
    forall i :: 0 <= i < |steps| ==> steps[i] != Reset(key, steps[i].at)
  }

  /** What a check answers in a run, read off the log. */
  lemma CheckOfRun(tiersOf: Tiering, steps: seq<Step>, key: string, now: nat)
    requires AllWindowed(tiersOf) && InOrder(steps) && Until(steps, now)
    ensures CheckKey(Happened(tiersOf, steps).db, key, tiersOf(key), now)
            == PlainVerdict(LogOf(PlainHappened(tiersOf, steps).logs, key), tiersOf(key), now)
  {
    hide Happened, PlainHappened, CheckKey, PlainVerdict, KeyTracks;
    ChecksReadTheFailures(tiersOf, steps, now);
    CheckReadsTheLog(Happened(tiersOf, steps).db, key, tiersOf(key), now,
                     LogOf(PlainHappened(tiersOf, steps).logs, key));
  }

  // -------------------------------------------------------- any wait, exactly

  /** How many of the failures live at `now` have left the tier at `t`. */
  function Leaving(log: seq<nat>, tier: Tier, now: nat, t: nat): nat {
    CountIn(log, now - tier.window, t - tier.window)
  }

  lemma {:induction false} LeavingLeave(log: seq<nat>, low: int, high: int)
    requires low <= high
    ensures CountAfter(log, high) == CountAfter(log, low) - CountIn(log, low, high)
  {
    if log != [] {
      LeavingLeave(log[..|log| - 1], low, high);
    }
  }

  /** Enough of the failures live at `now` have left the tier at `t`. */
  predicate EnoughLeave(log: seq<nat>, tiers: seq<Tier>, tier: Tier, now: nat, t: nat) {
    Weight(tiers, tier.window) * (CountAfter(log, now - tier.window) - Leaving(log, tier, now, t)) < tier.limit
  }

  lemma EnoughLeaveIsRoom(log: seq<nat>, tiers: seq<Tier>, tier: Tier, now: nat, t: nat)
    requires now <= t
    ensures EnoughLeave(log, tiers, tier, now, t) <==> !Full(log, tiers, tier, t)
  {
    hide CountAfter, CountIn, Weight;
    LeavingLeave(log, now - tier.window, t - tier.window);
  }

  /** With nothing recorded or forgotten meanwhile, a later check passes exactly when
      in every tier enough of the failures live at `now` have left. */
  lemma {:induction false} PassesIffEnoughLeave(tiersOf: Tiering, steps: seq<Step>, key: string, now: nat,
                                                more: seq<Step>, t: nat)
    requires AllWindowed(tiersOf) && InOrder(steps + more) && Until(steps, now) && Until(steps + more, t) && now <= t
    requires NoneRecorded(more, key) && NeverForgotten(more, key)
    ensures var log := LogOf(PlainHappened(tiersOf, steps).logs, key);
            CheckKey(Happened(tiersOf, steps + more).db, key, tiersOf(key), t).allowed <==>
            forall i :: 0 <= i < |tiersOf(key)| ==> EnoughLeave(log, tiersOf(key), tiersOf(key)[i], now, t)
  {
    hide Happened, PlainHappened, CheckKey, PlainVerdict, Full, EnoughLeave, NoneRecorded, NeverForgotten;
    CheckOfRun(tiersOf, steps + more, key, t);
    LogOnlyForgets(tiersOf, steps, more, key);
    var log, tiers := LogOf(PlainHappened(tiersOf, steps).logs, key), tiersOf(key);
    VerdictMeansRoom(log, tiers, t);
    forall i | 0 <= i < |tiers| ensures EnoughLeave(log, tiers, tiers[i], now, t) <==> !Full(log, tiers, tiers[i], t) {
      EnoughLeaveIsRoom(log, tiers, tiers[i], now, t);
    }
  }

  // ------------------------------------------------------- one at a time

  /** By the end of the wait every full tier has lost a failure. */
  lemma OldestLeavesEachTier(log: seq<nat>, tiers: seq<Tier>, tier: Tier, now: nat, t: nat)
    requires Windowed(tiers) && Limited(tiers) && tier in tiers && Full(log, tiers, tier, now)
    requires t >= now + PlainVerdict(log, tiers, now).wait && now <= t
    ensures CountAfter(log, t - tier.window) < CountAfter(log, now - tier.window)
  {
    hide CountAfter, Weight, OldestAfter, PlainWait, Windowed;
    var i :| 0 <= i < |tiers| && tiers[i] == tier;
    WaitIsTheLongest(log, tiers, tiers, now, 0);
    assert t >= now + RetryOf(log, tier, now);
    assert CountAfter(log, now - tier.window) > 0;
    OldestLeavesFirst(log, now - tier.window, t - tier.window);
  }

  /** What one attempt at a time leaves over the limit is gone after the wait. */
  lemma RoomAfterWait(log: seq<nat>, tiers: seq<Tier>, tier: Tier, now: nat, t: nat, seen: nat)
    requires Windowed(tiers) && Limited(tiers) && tier in tiers && now <= t
    requires t >= now + PlainVerdict(log, tiers, now).wait
    requires RoomAt(tiers, tier, seen) && CountAfter(log, now - tier.window) <= seen + 1
    ensures !Full(log, tiers, tier, t)
  {
    hide CountAfter, Weight, PlainVerdict, Windowed, Limited;
    var held, left := CountAfter(log, now - tier.window), CountAfter(log, t - tier.window);
    CountIsAntitone(log, now - tier.window, t - tier.window);
    if Full(log, tiers, tier, now) {
      OldestLeavesEachTier(log, tiers, tier, now, t);
      FactorIsMonotone(Weight(tiers, tier.window), left, seen);
    } else {
      FactorIsMonotone(Weight(tiers, tier.window), left, held);
    }
  }

  lemma RoomAfterWaitInRun(tiersOf: Tiering, steps: seq<Step>, key: string, tier: Tier, now: nat, t: nat)
    requires AllWindowed(tiersOf) && InOrder(steps) && Until(steps, now) && now <= t
    requires Windowed(tiersOf(key)) && Limited(tiersOf(key)) && tier in tiersOf(key)
    requires AtMostInFlight(steps, PlainHappened(tiersOf, steps).answers, key, 1)
    requires var log := LogOf(PlainHappened(tiersOf, steps).logs, key);
             t >= now + PlainVerdict(log, tiersOf(key), now).wait
    ensures !Full(LogOf(PlainHappened(tiersOf, steps).logs, key), tiersOf(key), tier, t)
  {
    hide PlainHappened, PlainVerdict, CountAfter, Weight, InFlight, AtMostInFlight, Full, RoomAt,
      InOrder, Until, Windowed;
    var plain := PlainHappened(tiersOf, steps);
    NoneNegative(steps, plain.answers, key);
    NothingIsNotFull(tiersOf(key), tier, t);
    var seen := FlightsAreBounded(tiersOf, steps, key, tier, 1, now);
    RoomAfterWait(LogOf(plain.logs, key), tiersOf(key), tier, now, t, seen);
  }

  /** With at most one attempt in flight at a time, the wait is enough: if nothing is
      recorded meanwhile, the check at its end passes. */
  lemma {:induction false} WaitIsEnoughAlone(tiersOf: Tiering, steps: seq<Step>, key: string, now: nat,
                                             more: seq<Step>, t: nat)
    requires AllWindowed(tiersOf) && InOrder(steps + more) && Until(steps, now) && Until(steps + more, t) && now <= t
    requires Limited(tiersOf(key)) && NoneRecorded(more, key)
    requires var answers := Happened(tiersOf, steps).answers;
             |answers| == |steps| && AtMostInFlight(steps, answers, key, 1)
    requires t >= now + CheckKey(Happened(tiersOf, steps).db, key, tiersOf(key), now).wait
    ensures CheckKey(Happened(tiersOf, steps + more).db, key, tiersOf(key), t).allowed
  {
    hide Happened, PlainHappened, CheckKey, PlainVerdict, Full, NoneRecorded, NeverForgotten, AtMostInFlight, Windowed,
      Limited, InOrder, Until;
    Prefix(steps, more);
    ChecksReadTheFailures(tiersOf, steps, now);
    CheckOfRun(tiersOf, steps, key, now);
    CheckOfRun(tiersOf, steps + more, key, t);
    LogOnlyForgets(tiersOf, steps, more, key);
    var tiers, log' := tiersOf(key), LogOf(PlainHappened(tiersOf, steps + more).logs, key);
    forall i | 0 <= i < |tiers| ensures !Full(log', tiers, tiers[i], t) {
      NothingIsNotFull(tiers, tiers[i], t);
      RoomAfterWaitInRun(tiersOf, steps, key, tiers[i], now, t);
    }
    VerdictMeansRoom(log', tiers, t);
  }

  lemma NoneNegative(steps: seq<Step>, answers: seq<Option<Verdict>>, key: string)
    requires |steps| == |answers| && AtMostInFlight(steps, answers, key, 1)
    ensures InFlight(steps, answers, key) >= 0
  {
    hide InFlight;
    assert steps[..|steps|] == steps && answers[..|steps|] == answers;
  }

  lemma NothingIsNotFull(tiers: seq<Tier>, tier: Tier, t: nat)
    requires Limited(tiers) && tier in tiers
    ensures tier.limit >= 1
    ensures !Full([], tiers, tier, t)
  {
    hide Weight;
  }

  // ----------------------------------------------------- two at a time

  /** Two attempts pass before either fails: two failures stand where one may. */
  function TwoAtOnce(key: string): seq<Step> {
    [Check(key, 0), Check(key, 0), Record(key, 0), Record(key, 5)]
  }

  /** Then the wait named at 6 ends at 10, and the check at 10 is refused. */
  lemma {:induction false} WaitIsTooShort(key: string)
    ensures var tiersOf: Tiering := (_: string) => [Tier(1, 10)];
            var db := Happened(tiersOf, TwoAtOnce(key)).db;
            && AtMostInFlight(TwoAtOnce(key), PlainHappened(tiersOf, TwoAtOnce(key)).answers, key, 2)
            && CheckKey(db, key, tiersOf(key), 6) == Verdict(false, 4)
            && !CheckKey(db, key, tiersOf(key), 10).allowed
  {
    hide Happened, CheckKey;
    var tiersOf: Tiering := (_: string) => [Tier(1, 10)];
    var steps := TwoAtOnce(key);
    CheckOfRun(tiersOf, steps, key, 6);
    CheckOfRun(tiersOf, steps, key, 10);
    TwoAreLogged(key);
    VerdictsOfTwo();
  }

  lemma VerdictsOfTwo()
    ensures PlainVerdict([0, 5], [Tier(1, 10)], 6) == Verdict(false, 4)
    ensures PlainVerdict([0, 5], [Tier(1, 10)], 10).wait > 0 && !PlainVerdict([0, 5], [Tier(1, 10)], 10).allowed
    ensures PlainVerdict([], [Tier(1, 10)], 0) == Verdict(true, 0)
  {
    assert [0, 5][..1] == [0] && [0][..0] == [];
    assert [Tier(1, 10)][1..] == [];
  }

  lemma TwoAreLogged(key: string)
    ensures var tiersOf: Tiering := (_: string) => [Tier(1, 10)];
            var plain := PlainHappened(tiersOf, TwoAtOnce(key));
            && LogOf(plain.logs, key) == [0, 5]
            && AtMostInFlight(TwoAtOnce(key), plain.answers, key, 2)
  {
    hide PlainVerdict, InFlight, AtMostInFlight;
    VerdictsOfTwo();
    var tiersOf: Tiering := (_: string) => [Tier(1, 10)];
    var steps := TwoAtOnce(key);
    assert steps == [Check(key, 0)] + [Check(key, 0)] + [Record(key, 0)] + [Record(key, 5)];
    LastStep(tiersOf, [], Check(key, 0));
    LastStep(tiersOf, [Check(key, 0)], Check(key, 0));
    LastStep(tiersOf, [Check(key, 0)] + [Check(key, 0)], Record(key, 0));
    LastStep(tiersOf, [Check(key, 0)] + [Check(key, 0)] + [Record(key, 0)], Record(key, 5));
    TwoAreInFlight(key, PlainHappened(tiersOf, steps).answers);
  }

  lemma TwoAreInFlight(key: string, answers: seq<Option<Verdict>>)
    requires answers == [Some(Verdict(true, 0)), Some(Verdict(true, 0)), None, None]
    ensures AtMostInFlight(TwoAtOnce(key), answers, key, 2)
  {
    hide InFlight;
    var steps := TwoAtOnce(key);
    NoneInFlight(key);
    InFlightByOne(steps, answers, key, 0);
    InFlightByOne(steps, answers, key, 1);
    InFlightByOne(steps, answers, key, 2);
    InFlightByOne(steps, answers, key, 3);
  }

  lemma NoneInFlight(key: string)
    ensures InFlight([], [], key) == 0
  {
  }

  lemma InFlightByOne(steps: seq<Step>, answers: seq<Option<Verdict>>, key: string, i: nat)
    requires |steps| == |answers| && i < |steps|
    ensures steps[..0] == [] && answers[..0] == []
    ensures InFlight(steps[..i + 1], answers[..i + 1], key) ==
            InFlight(steps[..i], answers[..i], key) + Entered(steps[i], answers[i], key)
  {
    assert steps[..i + 1][..i] == steps[..i] && answers[..i + 1][..i] == answers[..i];
  }
}
