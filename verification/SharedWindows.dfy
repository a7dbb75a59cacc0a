/** Tiers that share a window share a set, and every hit is recorded once for
    each of them. This module says exactly when that is as harmless as intended:
    a hit let in while every tier has seen fewer hits than its limit. */
module SharedWindows {
  import opened Results
  import opened HitStore
  import opened RateLimit
  import opened RateLimitRuns
  import opened RateLimitLaws

  // ------------------------------------------------------------ any tiers

  /** What the limits say: each tier counts every hit of its window once. */
  predicate Meant(log: seq<nat>, tiers: seq<Tier>, now: nat) {
    forall i :: 0 <= i < |tiers| ==> CountAfter(log, now - tiers[i].window) < tiers[i].limit
  }

  /** Some limit refuses everything, or each tier's weighted count is kept low
      enough by a tier with a window at least as long. */
  predicate Harmless(tiers: seq<Tier>) {
    || (exists i :: 0 <= i < |tiers| && tiers[i].limit < 1)
    || (forall i :: 0 <= i < |tiers| ==> KeptLow(tiers, tiers[i]))
  }

  predicate KeptLow(tiers: seq<Tier>, tier: Tier) {
    exists j :: 0 <= j < |tiers| && tiers[j].window >= tier.window
                && Weight(tiers, tier.window) * (tiers[j].limit - 1) < tier.limit
  }

  /** The limiter answers what its limits say on every log exactly when its tiers
      are harmless; tiers with windows of their own always are. */
  lemma VerdictsAreMeantIff(tiers: seq<Tier>)
    requires Windowed(tiers)
    ensures (forall log, now :: PlainVerdict(log, tiers, now).allowed <==> Meant(log, tiers, now)) <==> Harmless(tiers)
    ensures DistinctWindows(tiers) ==> Harmless(tiers)
  {
    hide PlainVerdict, Weight, CountAfter, DistinctWindows, Harmless, Meant;
    if Harmless(tiers) {
      forall log, now ensures PlainVerdict(log, tiers, now).allowed <==> Meant(log, tiers, now) {
        HarmlessIsMeant(tiers, log, now);
      }
    } else {
      var log, now := HarmfulLog(tiers);
    }
    if DistinctWindows(tiers) {
      DistinctIsHarmless(tiers);
    }
  }

  lemma DistinctIsHarmless(tiers: seq<Tier>)
    requires DistinctWindows(tiers)
    ensures Harmless(tiers)
  {
    hide Weight, DistinctWindows;
    forall i | 0 <= i < |tiers| ensures KeptLow(tiers, tiers[i]) {
      WeightOfTier(tiers, tiers[i]);
      assert Weight(tiers, tiers[i].window) * (tiers[i].limit - 1) < tiers[i].limit;
    }
  }

  lemma RoomIsMeant(tiers: seq<Tier>, tier: Tier, log: seq<nat>, now: nat)
    requires tier in tiers && !Full(log, tiers, tier, now)
    ensures CountAfter(log, now - tier.window) < tier.limit
  {
    hide Weight, CountAfter, DistinctWindows;
    WeightOfTier(tiers, tier);
    MoreOfAny(Weight(tiers, tier.window), CountAfter(log, now - tier.window));
  }

  lemma MoreOfAny(factor: nat, n: nat)
    requires factor >= 1
    ensures factor * n >= n
  {
  }

  lemma MeantIsRoom(tiers: seq<Tier>, tier: Tier, log: seq<nat>, now: nat)
    requires Meant(log, tiers, now) && KeptLow(tiers, tier)
    ensures !Full(log, tiers, tier, now)
  {
    hide Weight, CountAfter;
    var j :| 0 <= j < |tiers| && tiers[j].window >= tier.window
             && Weight(tiers, tier.window) * (tiers[j].limit - 1) < tier.limit;
    CountIsAntitone(log, now - tiers[j].window, now - tier.window);
    FactorIsMonotone(Weight(tiers, tier.window), CountAfter(log, now - tier.window), tiers[j].limit - 1);
  }

  lemma {:induction false} HarmlessIsMeant(tiers: seq<Tier>, log: seq<nat>, now: nat)
    requires Windowed(tiers) && Harmless(tiers)
    ensures PlainVerdict(log, tiers, now).allowed <==> Meant(log, tiers, now)
  {
    VerdictMeansRoom(log, tiers, now);
    hide PlainVerdict, Weight, CountAfter, Windowed, KeptLow;
    if HasRoom(log, tiers, now) {
      forall i | 0 <= i < |tiers| ensures CountAfter(log, now - tiers[i].window) < tiers[i].limit {
        RoomIsMeant(tiers, tiers[i], log, now);
      }
    }
    if Meant(log, tiers, now) {
      forall i | 0 <= i < |tiers| ensures !Full(log, tiers, tiers[i], now) {
        MeantIsRoom(tiers, tiers[i], log, now);
      }
    }
  }

  /** Of the tiers with a window at least this long, one with the lowest limit. */
  lemma {:induction false} Tightest(tiers: seq<Tier>, window: nat) returns (j: nat)
    requires exists i :: 0 <= i < |tiers| && tiers[i].window >= window
    ensures j < |tiers| && tiers[j].window >= window
    ensures forall i :: 0 <= i < |tiers| && tiers[i].window >= window ==> tiers[j].limit <= tiers[i].limit
  {
    var n := |tiers| - 1;
    if exists i :: 0 <= i < n && tiers[..n][i].window >= window {
      j := Tightest(tiers[..n], window);
      assert forall i :: 0 <= i < n ==> tiers[..n][i] == tiers[i];
      if tiers[n].window >= window && tiers[n].limit < tiers[j].limit {
        j := n;
      }
    } else {
      assert forall i :: 0 <= i < n ==> tiers[..n][i] == tiers[i];
      j := n;
    }
  }

  function Repeated(n: nat, at: nat): seq<nat> {
    seq(n, _ => at)
  }

  lemma {:induction false} CountOfRepeated(n: nat, at: nat, bound: int)
    ensures CountAfter(Repeated(n, at), bound) == if at > bound then n else 0
  {
    if n > 0 {
      CountOfRepeated(n - 1, at, bound);
      assert Repeated(n, at) == Repeated(n - 1, at) + [at];
      CountOfAppended(Repeated(n - 1, at), at, bound);
    }
  }

  /** Otherwise some log has room in every tier as its limit says, and is refused. */
  lemma HarmfulLog(tiers: seq<Tier>) returns (log: seq<nat>, now: nat)
    requires Windowed(tiers) && !Harmless(tiers)
    ensures Meant(log, tiers, now) && !PlainVerdict(log, tiers, now).allowed
  {
    hide PlainVerdict, Weight, CountAfter;
    var i :| 0 <= i < |tiers| && !KeptLow(tiers, tiers[i]);
    var j := Tightest(tiers, tiers[i].window);
    var held := tiers[j].limit - 1;
    log, now := Repeated(held, 0), tiers[i].window - 1;
    forall l | 0 <= l < |tiers| ensures CountAfter(log, now - tiers[l].window) < tiers[l].limit {
      CountOfRepeated(held, 0, now - tiers[l].window);
    }
    CountOfRepeated(held, 0, now - tiers[i].window);
    assert Full(log, tiers, tiers[i], now);
    VerdictMeansRoom(log, tiers, now);
  }

  // ------------------------------------------------------- one window for all

  predicate ShareWindow(tiers: seq<Tier>, window: nat) {
    tiers != [] && forall i :: 0 <= i < |tiers| ==> tiers[i].window == window
  }

  /** The smallest limit, which is the one said to decide. */
  function Lowest(tiers: seq<Tier>): (lowest: int)
    requires tiers != []
    ensures forall i :: 0 <= i < |tiers| ==> lowest <= tiers[i].limit
    ensures exists i :: 0 <= i < |tiers| && tiers[i].limit == lowest
  {
    if |tiers| == 1 then tiers[0].limit
    else
      var rest := Lowest(tiers[1..]);
      assert forall i :: 1 <= i < |tiers| ==> tiers[i] == tiers[1..][i - 1];
      if rest < tiers[0].limit then
        (var i :| 0 <= i < |tiers[1..]| && tiers[1..][i].limit == rest; assert tiers[i + 1].limit == rest; rest)
      else tiers[0].limit
  }

  function Deciding(tiers: seq<Tier>, window: nat): seq<Tier>
    requires tiers != []
  {
    [Tier(Lowest(tiers), window)]
  }

  lemma {:induction false} WeightOfAll(tiers: seq<Tier>, window: nat)
    requires forall i :: 0 <= i < |tiers| ==> tiers[i].window == window
    ensures Weight(tiers, window) == |tiers|
  {
    if tiers != [] {
      WeightOfAll(tiers[1..], window);
    }
  }

  lemma OneHitDecides(copies: nat, held: nat, lowest: int)
    requires copies >= 1 && (copies == 1 || lowest <= 1)
    ensures copies * held >= lowest <==> held >= lowest
  {
    MoreOfAny(copies, held);
  }

  lemma FullOfShared(tiers: seq<Tier>, window: nat, limit: int, log: seq<nat>, now: nat)
    requires ShareWindow(tiers, window)
    ensures Full(log, tiers, Tier(limit, window), now) <==> |tiers| * CountAfter(log, now - window) >= limit
  {
    hide CountAfter;
    WeightOfAll(tiers, window);
  }

  /** A tier is full for the list only when the deciding tier is full alone, and
      one of them is. */
  lemma SameFullness(tiers: seq<Tier>, window: nat, log: seq<nat>, now: nat)
    requires ShareWindow(tiers, window) && (|tiers| == 1 || Lowest(tiers) <= 1)
    ensures var one := Deciding(tiers, window);
            && (forall i :: 0 <= i < |tiers| && Full(log, tiers, tiers[i], now) ==> Full(log, one, one[0], now))
            && (Full(log, one, one[0], now) ==> exists i :: 0 <= i < |tiers| && Full(log, tiers, tiers[i], now))
  {
    hide Full, CountAfter;
    var one, lowest := Deciding(tiers, window), Lowest(tiers);
    var held := CountAfter(log, now - window);
    FullOfShared(one, window, lowest, log, now);
    assert Full(log, one, one[0], now) <==> held >= lowest;
    OneHitDecides(|tiers|, held, lowest);
    FullOfShared(tiers, window, lowest, log, now);
    var least :| 0 <= least < |tiers| && tiers[least].limit == lowest;
    assert tiers[least] == Tier(lowest, window);
    forall i | 0 <= i < |tiers| && Full(log, tiers, tiers[i], now) ensures held >= lowest {
      FullOfShared(tiers, window, tiers[i].limit, log, now);
      assert tiers[i] == Tier(tiers[i].limit, window);
    }
  }

  /** On one log, sharing costs nothing where a single hit already decides. */
  lemma SameVerdict(tiers: seq<Tier>, window: nat, log: seq<nat>, now: nat)
    requires ShareWindow(tiers, window) && window >= 1 && (|tiers| == 1 || Lowest(tiers) <= 1)
    ensures PlainVerdict(log, tiers, now) == PlainVerdict(log, Deciding(tiers, window), now)
  {
    hide Full, OldestAfter, PlainWait, Lowest;
    SameFullness(tiers, window, log, now);
    WaitIsTheLongest(log, tiers, tiers, now, 0);
    WaitIsTheLongest(log, Deciding(tiers, window), Deciding(tiers, window), now, 0);
  }

  lemma {:induction false} SameRuns(tiers: seq<Tier>, window: nat, events: seq<Event>)
    requires ShareWindow(tiers, window) && window >= 1 && (|tiers| == 1 || Lowest(tiers) <= 1)
    ensures PlainRun(tiers, events) == PlainRun(Deciding(tiers, window), events)
  {
    hide PlainVerdict, Lowest, ShareWindow;
    if events != [] {
      var n := |events| - 1;
      SameRuns(tiers, window, events[..n]);
      if events[n].Call? {
        SameVerdict(tiers, window, LogOf(PlainRun(tiers, events[..n]).logs, events[n].key), events[n].at);
      }
    }
  }

  // ------------------------------------------------------------- the failure

  function Burst(key: string, n: nat, at: nat): seq<Event> {
    seq(n, _ => Call(key, at))
  }

  predicate AllAllowed(answers: seq<Option<Verdict>>) {
    forall i :: 0 <= i < |answers| ==> answers[i] == Some(Verdict(true, 0))
  }

  /** A burst all let in leaves as many hits as it has calls. */
  lemma {:induction false} BurstIsLogged(tiers: seq<Tier>, key: string, n: nat, at: nat)
    ensures AllAllowed(PlainRun(tiers, Burst(key, n, at)).answers) ==>
              LogOf(PlainRun(tiers, Burst(key, n, at)).logs, key) == Repeated(n, at)
    ensures n > 0 ==>
              (AllAllowed(PlainRun(tiers, Burst(key, n, at)).answers) <==>
               AllAllowed(PlainRun(tiers, Burst(key, n - 1, at)).answers)
               && PlainVerdict(Repeated(n - 1, at), tiers, at) == Verdict(true, 0))
  {
    if n > 0 {
      var events := Burst(key, n, at);
      assert events[..n - 1] == Burst(key, n - 1, at);
      hide PlainVerdict;
      var before, after := PlainRun(tiers, Burst(key, n - 1, at)), PlainRun(tiers, events);
      assert after == PlainStep(tiers, before, Call(key, at));
      assert forall i :: 0 <= i < n - 1 ==> after.answers[i] == before.answers[i];
      assert after.answers[n - 1] == Some(PlainVerdict(LogOf(before.logs, key), tiers, at));
      BurstIsLogged(tiers, key, n - 1, at);
      assert Repeated(n, at) == Repeated(n - 1, at) + [at];
    }
  }

  /** Alone, a limit lets in as many calls of a burst as it says. */
  lemma {:induction false} BurstFitsAlone(limit: int, window: nat, key: string, n: nat, at: nat)
    requires window >= 1 && n <= limit
    ensures AllAllowed(PlainRun([Tier(limit, window)], Burst(key, n, at)).answers)
  {
    hide PlainRun, PlainVerdict;
    var tiers := [Tier(limit, window)];
    BurstIsLogged(tiers, key, n, at);
    if n > 0 {
      BurstFitsAlone(limit, window, key, n - 1, at);
      FitsAlone(limit, window, n - 1, at);
    } else {
      NobodyCalled(tiers, key, at);
    }
  }

  lemma NobodyCalled(tiers: seq<Tier>, key: string, at: nat)
    ensures PlainRun(tiers, Burst(key, 0, at)).answers == []
  {
  }

  lemma FitsAlone(limit: int, window: nat, held: nat, at: nat)
    requires window >= 1 && held < limit
    ensures PlainVerdict(Repeated(held, at), [Tier(limit, window)], at) == Verdict(true, 0)
  {
    hide CountAfter, Full;
    var tiers := [Tier(limit, window)];
    CountOfRepeated(held, at, at - window);
    FullOfShared(tiers, window, limit, Repeated(held, at), at);
    VerdictMeansRoom(Repeated(held, at), tiers, at);
  }

  lemma CopiesOverflow(copies: nat, lowest: nat)
    requires copies >= 2 && lowest >= 2
    ensures copies * (lowest - 1) >= lowest
  {
    FactorIsMonotone(lowest - 1, 2, copies);
  }

  lemma FullOfRepeated(tiers: seq<Tier>, window: nat, held: nat, limit: int, at: nat)
    requires ShareWindow(tiers, window) && window >= 1 && |tiers| * held >= limit
    ensures Full(Repeated(held, at), tiers, Tier(limit, window), at)
  {
    hide Full, CountAfter;
    CountOfRepeated(held, at, at - window);
    FullOfShared(tiers, window, limit, Repeated(held, at), at);
  }

  lemma LastIsRefused(tiers: seq<Tier>, window: nat, at: nat)
    requires ShareWindow(tiers, window) && window >= 1 && |tiers| >= 2 && Lowest(tiers) >= 2
    ensures !PlainVerdict(Repeated(Lowest(tiers) - 1, at), tiers, at).allowed
  {
    hide PlainVerdict, Full, Lowest;
    var n := Lowest(tiers);
    CopiesOverflow(|tiers|, n);
    FullOfRepeated(tiers, window, n - 1, n, at);
    var i :| 0 <= i < |tiers| && tiers[i].limit == n;
    assert tiers[i] == Tier(n, window);
    VerdictMeansRoom(Repeated(n - 1, at), tiers, at);
  }

  /** Shared, some of as many calls as the lowest limit is refused. */
  lemma BurstFailsShared(tiers: seq<Tier>, window: nat, key: string, at: nat)
    requires ShareWindow(tiers, window) && window >= 1 && |tiers| >= 2 && Lowest(tiers) >= 2
    ensures !AllAllowed(PlainRun(tiers, Burst(key, Lowest(tiers), at)).answers)
  {
    hide PlainVerdict, PlainRun;
    LastIsRefused(tiers, window, at);
    BurstIsLogged(tiers, key, Lowest(tiers), at);
  }

  predicate SameAnswers(tiers: seq<Tier>, others: seq<Tier>, events: seq<Event>) {
    Chronological(events) ==> Run(tiers, events).answers == Run(others, events).answers
  }

  lemma RunsArePlain(tiers: seq<Tier>, events: seq<Event>)
    requires Windowed(tiers) && Chronological(events)
    ensures Run(tiers, events).answers == PlainRun(tiers, events).answers
  {
    hide Run, PlainRun;
    RunsRefineTheLog(tiers, events, if events == [] then 0 else events[|events| - 1].at);
  }

  /** Tiers sharing a window answer every run as the smallest limit alone would
      exactly when there is one of them or that limit is at most one. */
  lemma {:induction false} SharingIsHarmlessIff(tiers: seq<Tier>, window: nat)
    requires ShareWindow(tiers, window) && window >= 1
    ensures (forall events :: SameAnswers(tiers, Deciding(tiers, window), events)) <==>
            |tiers| == 1 || Lowest(tiers) <= 1
  {
    hide Run, PlainRun, Lowest;
    if |tiers| == 1 || Lowest(tiers) <= 1 {
      forall events ensures SameAnswers(tiers, Deciding(tiers, window), events) {
        if Chronological(events) {
          RunsArePlain(tiers, events);
          RunsArePlain(Deciding(tiers, window), events);
          SameRuns(tiers, window, events);
        }
      }
    } else {
      var events := Burst("", Lowest(tiers), 0);
      RunsArePlain(tiers, events);
      RunsArePlain(Deciding(tiers, window), events);
      BurstFitsAlone(Lowest(tiers), window, "", Lowest(tiers), 0);
      BurstFailsShared(tiers, window, "", 0);
      assert !SameAnswers(tiers, Deciding(tiers, window), events);
    }
  }

  /** Two limits of two over one window: the second of two calls is refused, where
      either limit alone lets it in. */
  lemma SharedWindowHalvesTheLimit(window: nat, key: string, at: nat)
    requires window >= 1
    ensures var twice, once := [Tier(2, window), Tier(2, window)], [Tier(2, window)];
            var calls := [Call(key, at), Call(key, at)];
            && Run(twice, calls).answers == [Some(Verdict(true, 0)), Some(Verdict(false, window))]
            && Run(once, calls).answers == [Some(Verdict(true, 0)), Some(Verdict(true, 0))]
  {
    hide Run;
    var twice, once := [Tier(2, window), Tier(2, window)], [Tier(2, window)];
    var calls := Burst(key, 2, at);
    assert calls == [Call(key, at), Call(key, at)];
    RunsArePlain(twice, calls);
    RunsArePlain(once, calls);
    BurstFitsAlone(2, window, key, 2, at);
    SecondIsRefused(window, key, at);
  }

  lemma SecondIsRefused(window: nat, key: string, at: nat)
    requires window >= 1
    ensures var twice := [Tier(2, window), Tier(2, window)];
            PlainRun(twice, Burst(key, 2, at)).answers == [Some(Verdict(true, 0)), Some(Verdict(false, window))]
  {
    hide PlainVerdict;
    var twice := [Tier(2, window), Tier(2, window)];
    var one, two := Burst(key, 1, at), Burst(key, 2, at);
    assert two[..1] == one && one[..0] == [];
    VerdictOfTwo(window, 0, at);
    VerdictOfTwo(window, 1, at);
    assert Repeated(0, at) == [] && Repeated(1, at) == [at];
    var nobody := Plain(map[], []);
    assert PlainRun(twice, []) == nobody;
    assert PlainRun(twice, one) == PlainStep(twice, nobody, Call(key, at));
    assert LogOf(nobody.logs, key) == [] && LogOf(PlainRun(twice, one).logs, key) == [at];
    assert PlainRun(twice, two) == PlainStep(twice, PlainRun(twice, one), Call(key, at));
    assert PlainRun(twice, one).answers == [Some(Verdict(true, 0))];
  }

  lemma VerdictOfTwo(window: nat, held: nat, at: nat)
    requires window >= 1 && held <= 1
    ensures PlainVerdict(Repeated(held, at), [Tier(2, window), Tier(2, window)], at)
            == if held == 0 then Verdict(true, 0) else Verdict(false, window)
  {
    hide PlainWait;
    var twice, log := [Tier(2, window), Tier(2, window)], Repeated(held, at);
    WeightOfAll(twice, window);
    CountOfRepeated(held, at, at - window);
    WaitIsTheLongest(log, twice, twice, at, 0);
    if held == 1 {
      assert Full(log, twice, twice[0], at);
    }
  }
}
