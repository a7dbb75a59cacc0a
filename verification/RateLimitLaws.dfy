/** What the limiter promises over whole runs: no window ever holds more than its
    limit, a refusal leaves nothing behind, and the wait it names is exact. */
module RateLimitLaws {
  import opened Results
  import opened HitStore
  import opened RateLimit
  import opened RateLimitRuns

  // ------------------------------------------------------- one verdict

  predicate Full(log: seq<nat>, all: seq<Tier>, tier: Tier, now: nat) {
    Weight(all, tier.window) * CountAfter(log, now - tier.window) >= tier.limit
  }

  predicate HasRoom(log: seq<nat>, tiers: seq<Tier>, now: nat) {
    forall i :: 0 <= i < |tiers| ==> !Full(log, tiers, tiers[i], now)
  }

  function RetryOf(log: seq<nat>, tier: Tier, now: nat): int {
    Retry(OldestAfter(log, now - tier.window), tier.window, now)
  }

  predicate NoLaterThan(log: seq<nat>, now: nat) {
    forall i :: 0 <= i < |log| ==> log[i] <= now
  }

  lemma RetryIsInTheWindow(log: seq<nat>, tier: Tier, now: nat)
    requires tier.window >= 1
    ensures RetryOf(log, tier, now) > 0
    ensures NoLaterThan(log, now) ==> RetryOf(log, tier, now) <= tier.window
  {
  }

  /** The wait is the longest any full tier asks for, and zero without one. */
  lemma {:induction false} WaitIsTheLongest(log: seq<nat>, all: seq<Tier>, tiers: seq<Tier>, now: nat, wait: nat)
    requires Windowed(tiers)
    ensures var r := PlainWait(log, all, tiers, now, wait);
            && r >= wait
            && (forall i :: 0 <= i < |tiers| && Full(log, all, tiers[i], now) ==> r >= RetryOf(log, tiers[i], now) > 0)
            && (r == wait ||
                exists i :: 0 <= i < |tiers| && Full(log, all, tiers[i], now) && r == RetryOf(log, tiers[i], now))
    decreases |tiers|
  {
    hide Full, RetryOf;
    if tiers != [] {
      var next := TierWait(log, all, tiers[0], now, wait);
      WaitIsTheLongest(log, all, tiers[1..], now, next);
      var r := PlainWait(log, all, tiers, now, wait);
      assert tiers == [tiers[0]] + tiers[1..];
      if r != next {
        var i :| 0 <= i < |tiers[1..]| && Full(log, all, tiers[1..][i], now) && r == RetryOf(log, tiers[1..][i], now);
        assert tiers[i + 1] == tiers[1..][i];
      }
      forall i | 0 <= i < |tiers| && Full(log, all, tiers[i], now) ensures r >= RetryOf(log, tiers[i], now) > 0 {
        if i > 0 {
          assert tiers[i] == tiers[1..][i - 1];
        }
      }
    }
  }

  lemma TierWait(log: seq<nat>, all: seq<Tier>, tier: Tier, now: nat, wait: nat) returns (next: nat)
    requires tier.window >= 1
    ensures next == PlainTierWait(log, all, tier, now, wait) && next >= wait
    ensures Full(log, all, tier, now) ==> next >= RetryOf(log, tier, now) > 0
    ensures next == wait || (Full(log, all, tier, now) && next == RetryOf(log, tier, now))
  {
    next := PlainTierWait(log, all, tier, now, wait);
  }

  /** A call is admitted exactly when every tier holds fewer hits than its limit
      in the window ending now; a refusal's wait is positive and no longer than
      the longest window. */
  lemma VerdictMeansRoom(log: seq<nat>, tiers: seq<Tier>, now: nat)
    requires Windowed(tiers)
    ensures var v := PlainVerdict(log, tiers, now);
            && (v.allowed <==> HasRoom(log, tiers, now))
            && (!v.allowed ==> 0 < v.wait && (NoLaterThan(log, now) ==> v.wait <= LongestWindow(tiers)))
  {
    WaitIsTheLongest(log, tiers, tiers, now, 0);
    forall i | 0 <= i < |tiers|
      ensures NoLaterThan(log, now) ==> RetryOf(log, tiers[i], now) <= LongestWindow(tiers)
    {
      RetryIsInTheWindow(log, tiers[i], now);
    }
    hide Full, RetryOf, NoLaterThan, PlainWait;
  }

  /** With no hit to wait for, what refuses is a limit below one, and the wait is the
      longest window such a limit has. */
  lemma {:induction false} NothingToWaitFor(log: seq<nat>, tiers: seq<Tier>, now: nat)
    requires Windowed(tiers)
    requires forall i, k :: 0 <= i < |tiers| && 0 <= k < |log| ==> log[k] <= now - tiers[i].window
    ensures var v := PlainVerdict(log, tiers, now);
            && (v.allowed <==> forall i :: 0 <= i < |tiers| ==> tiers[i].limit >= 1)
            && (forall i :: 0 <= i < |tiers| && tiers[i].limit < 1 ==> v.wait >= tiers[i].window)
            && (!v.allowed ==> exists i :: 0 <= i < |tiers| && tiers[i].limit < 1 && v.wait == tiers[i].window)
  {
    forall i | 0 <= i < |tiers|
      ensures Full(log, tiers, tiers[i], now) <==> tiers[i].limit < 1
      ensures RetryOf(log, tiers[i], now) == tiers[i].window
    {
      NoneAfter(log, now - tiers[i].window);
      assert Weight(tiers, tiers[i].window) * 0 == 0;
    }
    WaitIsTheLongest(log, tiers, tiers, now, 0);
    hide Full, RetryOf, PlainWait;
  }

  lemma {:induction false} NoneAfter(log: seq<nat>, bound: int)
    requires forall k :: 0 <= k < |log| ==> log[k] <= bound
    ensures CountAfter(log, bound) == 0 && OldestAfter(log, bound).None?
  {
    if log != [] {
      NoneAfter(log[..|log| - 1], bound);
    }
  }

  // ---------------------------------------------------- logs of admitted hits

  /** Every hit of the log found room when it came. */
  predicate Admissible(log: seq<nat>, tiers: seq<Tier>) {
    forall i :: 0 <= i < |log| ==> NoLaterThan(log[..i], log[i]) && HasRoom(log[..i], tiers, log[i])
  }

  lemma AdmissibleFront(log: seq<nat>, tiers: seq<Tier>)
    requires Admissible(log, tiers) && log != []
    ensures var front, last := log[..|log| - 1], log[|log| - 1];
            Admissible(front, tiers) && NoLaterThan(front, last) && HasRoom(front, tiers, last)
  {
    hide NoLaterThan, HasRoom;
    var front := log[..|log| - 1];
    assert forall i :: 0 <= i < |front| ==> front[..i] == log[..i];
  }

  lemma AdmissibleGrows(log: seq<nat>, tiers: seq<Tier>, now: nat)
    requires Admissible(log, tiers) && NoLaterThan(log, now) && HasRoom(log, tiers, now)
    ensures Admissible(log + [now], tiers)
  {
    hide NoLaterThan, HasRoom;
    var grown := log + [now];
    assert grown[..|log|] == log;
    assert forall i :: 0 <= i < |log| ==> grown[..i] == log[..i];
  }

  ghost predicate AllAdmissible(logs: map<string, seq<nat>>, tiers: seq<Tier>, now: nat) {
    forall key :: Admissible(LogOf(logs, key), tiers) && NoLaterThan(LogOf(logs, key), now)
  }

  lemma {:induction false} RunsAreAdmissible(tiers: seq<Tier>, events: seq<Event>, now: nat)
    requires Windowed(tiers) && Chronological(events)
    requires forall i :: 0 <= i < |events| ==> events[i].at <= now
    ensures AllAdmissible(PlainRun(tiers, events).logs, tiers, now)
  {
    if events != [] {
      var front, last := events[..|events| - 1], events[|events| - 1];
      RunsAreAdmissible(tiers, front, last.at);
      var before := PlainRun(tiers, front);
      assert PlainRun(tiers, events) == PlainStep(tiers, before, last);
      hide PlainRun, PlainVerdict;
      StepKeepsAdmissible(tiers, before, last, now);
    }
  }

  lemma StepKeepsAdmissible(tiers: seq<Tier>, before: Plain, e: Event, now: nat)
    requires Windowed(tiers) && AllAdmissible(before.logs, tiers, e.at) && e.at <= now
    ensures AllAdmissible(PlainStep(tiers, before, e).logs, tiers, now)
  {
    hide Admissible, HasRoom, PlainVerdict;
    if e.Call? {
      var log := LogOf(before.logs, e.key);
      VerdictMeansRoom(log, tiers, e.at);
      if HasRoom(log, tiers, e.at) {
        AdmissibleGrows(log, tiers, e.at);
      }
    }
    var after := PlainStep(tiers, before, e);
    forall key ensures Admissible(LogOf(after.logs, key), tiers) && NoLaterThan(LogOf(after.logs, key), now) {
      assert Admissible(LogOf(before.logs, key), tiers) && NoLaterThan(LogOf(before.logs, key), e.at);
    }
  }

  // ------------------------------------------------------ never over the limit

  /** How many logged times lie in (low, high]. */
  function CountIn(log: seq<nat>, low: int, high: int): nat {
    if log == [] then 0
    else CountIn(log[..|log| - 1], low, high) + if low < log[|log| - 1] <= high then 1 else 0
  }

  lemma {:induction false} CountInIsCountAfter(log: seq<nat>, low: int, high: nat)
    requires NoLaterThan(log, high)
    ensures CountIn(log, low, high) == CountAfter(log, low)
  {
    if log != [] {
      CountInIsCountAfter(log[..|log| - 1], low, high);
    }
  }

  /** Before the last hit of a window came, there was room for it. */
  lemma LastHitHadRoom(log: seq<nat>, tiers: seq<Tier>, tier: Tier, now: nat)
    requires Admissible(log, tiers) && tier in tiers && NoLaterThan(log, now)
    ensures var held := CountAfter(log, now - tier.window);
            held > 0 ==> Weight(tiers, tier.window) * (held - 1) < tier.limit
  {
    hide Weight, CountAfter, Admissible;
    if log != [] {
      var front, last := log[..|log| - 1], log[|log| - 1];
      AdmissibleFront(log, tiers);
      assert log == front + [last] && log[|log| - 1] <= now;
      CountGrowsByOne(front, last, log, tier.window, now);
      RoomForOneMore(front, tiers, tier, last, CountAfter(log, now - tier.window));
    }
  }

  lemma RoomForOneMore(log: seq<nat>, tiers: seq<Tier>, tier: Tier, now: nat, held: nat)
    requires HasRoom(log, tiers, now) && tier in tiers && held <= CountAfter(log, now - tier.window) + 1
    ensures held > 0 ==> Weight(tiers, tier.window) * (held - 1) < tier.limit
  {
    hide Weight, CountAfter;
    assert !Full(log, tiers, tier, now);
    if held > 0 {
      FactorIsMonotone(Weight(tiers, tier.window), held - 1, CountAfter(log, now - tier.window));
    }
  }

  lemma CountGrowsByOne(front: seq<nat>, last: nat, log: seq<nat>, window: nat, now: nat)
    requires log == front + [last] && last <= now
    ensures CountAfter(log, now - window) <= CountAfter(front, last - window) + 1
  {
    CountIsAntitone(log, last - window, now - window);
    CountOfAppended(front, last, last - window);
  }

  lemma FactorIsMonotone(weight: nat, a: nat, b: nat)
    requires a <= b
    ensures weight * a <= weight * b
  {
    assert weight * b == weight * a + weight * (b - a);
  }

  /** No window of any tier, wherever it ends, holds more admitted hits than the
      limit — counting each hit once for every tier it is stored under. */
  lemma {:induction false} LogIsNeverOverLimit(log: seq<nat>, tiers: seq<Tier>, tier: Tier, t: nat)
    requires Admissible(log, tiers) && tier in tiers
    ensures var held := CountIn(log, t - tier.window, t);
            held > 0 ==> Weight(tiers, tier.window) * (held - 1) < tier.limit
  {
    if log != [] && log[|log| - 1] > t {
      AdmissibleFront(log, tiers);
      LogIsNeverOverLimit(log[..|log| - 1], tiers, tier, t);
    } else if log != [] {
      AdmissibleFront(log, tiers);
      assert NoLaterThan(log, t);
      CountInIsCountAfter(log, t - tier.window, t);
      LastHitHadRoom(log, tiers, tier, t);
    }
  }

  /** The calls on a key admitted at times in (low, high], as they were answered. */
  function AdmittedIn(events: seq<Event>, answers: seq<Option<Verdict>>, key: string, low: int, high: int): nat
    requires |events| == |answers|
  {
    if events == [] then 0
    else
      var n := |events| - 1;
      var hit := events[n].Call? && events[n].key == key && low < events[n].at <= high
                 && answers[n].Some? && answers[n].value.allowed;
      AdmittedIn(events[..n], answers[..n], key, low, high) + if hit then 1 else 0
  }

  lemma {:induction false} LogCountsTheAdmitted(tiers: seq<Tier>, events: seq<Event>, key: string, low: int, high: int)
    ensures AdmittedIn(events, PlainRun(tiers, events).answers, key, low, high)
            == CountIn(LogOf(PlainRun(tiers, events).logs, key), low, high)
  {
    if events != [] {
      var front, last := events[..|events| - 1], events[|events| - 1];
      LogCountsTheAdmitted(tiers, front, key, low, high);
      var before, after := PlainRun(tiers, front), PlainRun(tiers, events);
      assert after == PlainStep(tiers, before, last);
      assert after.answers[..|front|] == before.answers;
      var log := LogOf(before.logs, key);
      hide PlainVerdict, PlainRun;
      assert (log + [last.at])[..|log|] == log;
    }
  }

  /** Over every run, for every tier and every instant, the calls admitted in the
      window ending there number at most the limit. */
  lemma NeverOverLimit(tiers: seq<Tier>, events: seq<Event>, key: string, tier: Tier, t: nat)
    requires Windowed(tiers) && Chronological(events) && tier in tiers
    ensures |Run(tiers, events).answers| == |events|
    ensures var admitted := AdmittedIn(events, Run(tiers, events).answers, key, t - tier.window, t);
            admitted <= if tier.limit < 0 then 0 else tier.limit
  {
    hide Run, PlainRun, Admissible, CountIn, AdmittedIn, Weight, Windowed, DistinctWindows;
    var now := if events == [] then 0 else events[|events| - 1].at;
    RunsRefineTheLog(tiers, events, now);
    RunsAreAdmissible(tiers, events, now);
    var log := LogOf(PlainRun(tiers, events).logs, key);
    assert Admissible(log, tiers);
    LogCountsTheAdmitted(tiers, events, key, t - tier.window, t);
    LogIsNeverOverLimit(log, tiers, tier, t);
    WeightOfTier(tiers, tier);
    var held := CountIn(log, t - tier.window, t);
    if held > 0 {
      SameFactor(Weight(tiers, tier.window), held - 1, 0);
      FactorIsMonotone(held - 1, 1, Weight(tiers, tier.window));
    }
  }
}
