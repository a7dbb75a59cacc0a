/** When tiers that share a window answer every run as their limits say. Each hit
    is recorded once per sharing tier, so a tier fills up early; that shows in a
    run exactly when so many hits can follow each other fast enough. */
module MeantRuns {
  import opened Results
  import opened HitStore
  import opened RateLimit
  import opened RateLimitRuns
  import opened RateLimitLaws
  import opened RateLimitRetry
  import opened SharedWindows

  // ---------------------------------------------- the limiter as it is meant

  datatype Simple = Simple(logs: map<string, seq<nat>>, answers: seq<Option<bool>>)

  function MeantStep(tiers: seq<Tier>, before: Simple, e: Event): Simple {
    match e
    case Call(key, at) =>
      var log := LogOf(before.logs, key);
      if Meant(log, tiers, at)
      then Simple(before.logs[key := log + [at]], before.answers + [Some(true)])
      else Simple(before.logs, before.answers + [Some(false)])
    case Expiry(_, _) => before.(answers := before.answers + [None])
  }

  /** Every tier counts every admitted hit of its window once. */
  function MeantRun(tiers: seq<Tier>, events: seq<Event>): Simple {
    if events == [] then Simple(map[], [])
    else MeantStep(tiers, MeantRun(tiers, events[..|events| - 1]), events[|events| - 1])
  }

  function Allowances(answers: seq<Option<Verdict>>): (allowances: seq<Option<bool>>)
    ensures |allowances| == |answers|
  {
    seq(|answers|, i requires 0 <= i < |answers| =>
      if answers[i].Some? then Some(answers[i].value.allowed) else None)
  }

  /** The script lets in exactly the calls the limits say it should. */
  predicate AnswersAsMeant(tiers: seq<Tier>, events: seq<Event>) {
    Chronological(events) ==> Allowances(Run(tiers, events).answers) == MeantRun(tiers, events).answers
  }

  // ------------------------------------------------------- how fast hits come

  /** The soonest the hit numbered `n` from zero can come after the first one: each
      limit holds it a window back from the hit that many before it. */
  function Soonest(tiers: seq<Tier>, n: nat): nat
    requires Limited(tiers)
    decreases n, |tiers| + 1
  {
    if n == 0 then 0 else SoonestFor(tiers, tiers, n)
  }

  /** The same, held back by some of the tiers only. */
  function SoonestFor(tiers: seq<Tier>, some: seq<Tier>, n: nat): (soonest: nat)
    requires Limited(tiers) && Limited(some) && n > 0
    decreases n, |some|
  {
    if some == [] then Soonest(tiers, n - 1)
    else
      var rest := SoonestFor(tiers, some[1..], n);
      if some[0].limit > n then rest
      else
        var held := Soonest(tiers, n - some[0].limit) + some[0].window;
        if rest < held then held else rest
  }

  /** How many hits fill a tier when each is recorded so many times. */
  function Fill(limit: int, weight: nat): nat
    requires limit >= 1 && weight >= 1
  {
    (limit + weight - 1) / weight
  }

  /** Some limit refuses everything, or no tier can be filled within its window. */
  predicate KeepsPace(tiers: seq<Tier>) {
    Limited(tiers) ==>
      forall i :: 0 <= i < |tiers| ==>
        var weight := Weight(tiers, tiers[i].window);
        weight >= 1 && tiers[i].window <= Soonest(tiers, Fill(tiers[i].limit, weight))
  }

  lemma FillIsLeast(limit: int, weight: nat, n: nat)
    requires limit >= 1 && weight >= 1
    ensures weight * n >= limit <==> n >= Fill(limit, weight)
  {
    var fill := Fill(limit, weight);
    assert weight * fill <= limit + weight - 1 < weight * fill + weight;
    if n >= fill {
      FactorIsMonotone(weight, fill, n);
    } else {
      FactorIsMonotone(weight, n, fill - 1);
      assert weight * (fill - 1) == weight * fill - weight;
    }
  }

  lemma {:induction false} SoonestForIsLater(tiers: seq<Tier>, some: seq<Tier>, n: nat)
    requires Limited(tiers) && Limited(some) && n > 0
    ensures Soonest(tiers, n - 1) <= SoonestFor(tiers, some, n)
    ensures forall i :: 0 <= i < |some| && some[i].limit <= n ==>
              Soonest(tiers, n - some[i].limit) + some[i].window <= SoonestFor(tiers, some, n)
    decreases |some|
  {
    if some != [] {
      SoonestForIsLater(tiers, some[1..], n);
      assert forall i :: 0 < i < |some| ==> some[i] == some[1..][i - 1];
    }
  }

  lemma {:induction false} SoonestIsMonotone(tiers: seq<Tier>, m: nat, n: nat)
    requires Limited(tiers) && m <= n
    ensures Soonest(tiers, m) <= Soonest(tiers, n)
  {
    if m < n {
      SoonestIsMonotone(tiers, m, n - 1);
      SoonestForIsLater(tiers, tiers, n);
    }
  }

  // ------------------------------------------------- logs of meant admissions

  predicate Ascends(log: seq<nat>) {
    forall i, j :: 0 <= i <= j < |log| ==> log[i] <= log[j]
  }

  /** Every hit came in order and when its limits let it. */
  predicate MeantLog(log: seq<nat>, tiers: seq<Tier>) {
    Ascends(log) && forall i :: 0 <= i < |log| ==> Meant(log[..i], tiers, log[i])
  }

  /** On an ascending log the hits after a bound are its last ones. */
  lemma {:induction false} CountIsSuffix(log: seq<nat>, bound: int, n: nat)
    requires Ascends(log) && n <= |log|
    ensures n > 0 ==> (CountAfter(log, bound) >= n <==> log[|log| - n] > bound)
  {
    if n > 0 {
      var front, last := log[..|log| - 1], log[|log| - 1];
      if last > bound {
        CountIsSuffix(front, bound, n - 1);
      } else {
        NoneAfter(log, bound);
      }
    }
  }

  /** No log of meant admissions is faster than the soonest. */
  lemma {:induction false} NoLogIsFaster(log: seq<nat>, tiers: seq<Tier>, a: nat, b: nat)
    requires Limited(tiers) && MeantLog(log, tiers) && a <= b < |log|
    ensures log[b] - log[a] >= Soonest(tiers, b - a)
    decreases b - a, |tiers| + 1
  {
    if a < b {
      NoLogIsFasterFor(log, tiers, tiers, a, b);
    }
  }

  lemma {:induction false} NoLogIsFasterFor(log: seq<nat>, tiers: seq<Tier>, some: seq<Tier>, a: nat, b: nat)
    requires Limited(tiers) && Limited(some) && MeantLog(log, tiers) && a < b < |log|
    requires forall i :: 0 <= i < |some| ==> some[i] in tiers
    ensures log[b] - log[a] >= SoonestFor(tiers, some, b - a)
    decreases b - a, |some|
  {
    hide Meant, CountAfter, Soonest;
    if some == [] {
      NoLogIsFaster(log, tiers, a, b - 1);
    } else {
      NoLogIsFasterFor(log, tiers, some[1..], a, b);
      var tier := some[0];
      if tier.limit <= b - a {
        NoLogIsFaster(log, tiers, a, b - tier.limit);
        AWindowApart(log, tiers, tier, b);
      }
    }
  }

  /** A hit comes a whole window after the one `limit` before it. */
  lemma AWindowApart(log: seq<nat>, tiers: seq<Tier>, tier: Tier, b: nat)
    requires MeantLog(log, tiers) && tier in tiers && b < |log| && 1 <= tier.limit <= b
    ensures log[b] >= log[b - tier.limit] + tier.window
  {
    hide CountAfter;
    assert Meant(log[..b], tiers, log[b]);
    CountIsSuffix(log[..b], log[b] - tier.window, tier.limit);
  }

  /** The log that is as fast as the limits let it be. */
  function Greedy(tiers: seq<Tier>, n: nat): seq<nat>
    requires Limited(tiers)
  {
    seq(n, i requires 0 <= i < n => Soonest(tiers, i))
  }

  lemma {:induction false} GreedyAscends(tiers: seq<Tier>, n: nat)
    requires Limited(tiers)
    ensures Ascends(Greedy(tiers, n))
  {
    forall i, j | 0 <= i <= j < n ensures Greedy(tiers, n)[i] <= Greedy(tiers, n)[j] {
      SoonestIsMonotone(tiers, i, j);
    }
  }

  lemma {:induction false} GreedyIsMeant(tiers: seq<Tier>, n: nat)
    requires Limited(tiers)
    ensures Meant(Greedy(tiers, n), tiers, Soonest(tiers, n))
  {
    hide CountAfter;
    var log := Greedy(tiers, n);
    GreedyAscends(tiers, n);
    forall i | 0 <= i < |tiers| ensures CountAfter(log, Soonest(tiers, n) - tiers[i].window) < tiers[i].limit {
      if tiers[i].limit <= n {
        SoonestForIsLater(tiers, tiers, n);
        CountIsSuffix(log, Soonest(tiers, n) - tiers[i].window, tiers[i].limit);
      }
    }
  }

  // ------------------------------------------------------------ one verdict

  lemma MeantLogGrows(log: seq<nat>, tiers: seq<Tier>, now: nat)
    requires MeantLog(log, tiers) && NoLaterThan(log, now) && Meant(log, tiers, now)
    ensures MeantLog(log + [now], tiers)
  {
    hide Meant;
    var grown := log + [now];
    assert grown[..|log|] == log;
    assert forall i :: 0 <= i < |log| ==> grown[..i] == log[..i];
  }

  /** A tier that cannot be filled within its window is not full when its limit has
      room. */
  lemma NotFilledInTime(log: seq<nat>, tiers: seq<Tier>, tier: Tier, now: nat)
    requires Limited(tiers) && MeantLog(log, tiers) && NoLaterThan(log, now) && Meant(log, tiers, now)
    requires tier in tiers && Weight(tiers, tier.window) >= 1
    requires tier.window <= Soonest(tiers, Fill(tier.limit, Weight(tiers, tier.window)))
    ensures !Full(log, tiers, tier, now)
  {
    hide CountAfter, Weight, Meant, Soonest;
    var weight, held := Weight(tiers, tier.window), CountAfter(log, now - tier.window);
    var fill := Fill(tier.limit, weight);
    FillIsLeast(tier.limit, weight, held);
    FillIsLeast(tier.limit, weight, 0);
    if fill <= |log| {
      MeantLogGrows(log, tiers, now);
      NoLogIsFaster(log + [now], tiers, |log| - fill, |log|);
      CountIsSuffix(log, now - tier.window, fill);
    }
  }

  lemma {:induction false} PaceIsMeant(tiers: seq<Tier>, log: seq<nat>, now: nat)
    requires Windowed(tiers) && KeepsPace(tiers)
    requires Limited(tiers) ==> MeantLog(log, tiers) && NoLaterThan(log, now)
    ensures PlainVerdict(log, tiers, now).allowed <==> Meant(log, tiers, now)
  {
    hide PlainVerdict, CountAfter, Weight, Soonest, KeptLow, Windowed, Full;
    if !Limited(tiers) {
      HarmlessIsMeant(tiers, log, now);
    } else {
      VerdictMeansRoom(log, tiers, now);
      if HasRoom(log, tiers, now) {
        forall i | 0 <= i < |tiers| ensures CountAfter(log, now - tiers[i].window) < tiers[i].limit {
          RoomIsMeant(tiers, tiers[i], log, now);
        }
      }
      if Meant(log, tiers, now) {
        forall i | 0 <= i < |tiers| ensures !Full(log, tiers, tiers[i], now) {
          NotFilledInTime(log, tiers, tiers[i], now);
        }
      }
    }
  }

  // -------------------------------------------------------------- every run

  ghost predicate MeantLogs(logs: map<string, seq<nat>>, tiers: seq<Tier>, now: nat) {
    Limited(tiers) ==> forall key :: MeantLog(LogOf(logs, key), tiers) && NoLaterThan(LogOf(logs, key), now)
  }

  lemma {:induction false} RunsKeepPace(tiers: seq<Tier>, events: seq<Event>, now: nat)
    requires Windowed(tiers) && KeepsPace(tiers) && Chronological(events)
    requires forall i :: 0 <= i < |events| ==> events[i].at <= now
    ensures var plain, meant := PlainRun(tiers, events), MeantRun(tiers, events);
            && Allowances(plain.answers) == meant.answers && plain.logs == meant.logs
            && MeantLogs(meant.logs, tiers, now)
  {
    hide PlainVerdict, Meant, MeantLog, KeepsPace, Windowed;
    if events == [] {
      EmptyIsMeant(tiers);
    } else {
      var front, last := events[..|events| - 1], events[|events| - 1];
      RunsKeepPace(tiers, front, last.at);
      StepKeepsPace(tiers, PlainRun(tiers, front), MeantRun(tiers, front), last, now);
    }
  }

  function LastInstant(events: seq<Event>): nat {
    if events == [] then 0 else events[|events| - 1].at
  }

  lemma EmptyIsMeant(tiers: seq<Tier>)
    ensures MeantLog([], tiers) && Allowances([]) == []
  {
  }

  lemma StepKeepsPace(tiers: seq<Tier>, plain: Plain, meant: Simple, e: Event, now: nat)
    requires Windowed(tiers) && KeepsPace(tiers) && e.at <= now
    requires Allowances(plain.answers) == meant.answers && plain.logs == meant.logs
    requires MeantLogs(meant.logs, tiers, e.at)
    ensures var plain', meant' := PlainStep(tiers, plain, e), MeantStep(tiers, meant, e);
            && Allowances(plain'.answers) == meant'.answers && plain'.logs == meant'.logs
            && MeantLogs(meant'.logs, tiers, now)
  {
    hide PlainVerdict, Meant, MeantLog, KeepsPace, Windowed;
    if e.Call? {
      var log := LogOf(meant.logs, e.key);
      PaceIsMeant(tiers, log, e.at);
      if Limited(tiers) && Meant(log, tiers, e.at) {
        MeantLogGrows(log, tiers, e.at);
      }
    }
    var meant' := MeantStep(tiers, meant, e);
    if Limited(tiers) {
      forall key ensures MeantLog(LogOf(meant'.logs, key), tiers) && NoLaterThan(LogOf(meant'.logs, key), now) {
        assert MeantLog(LogOf(meant.logs, key), tiers) && NoLaterThan(LogOf(meant.logs, key), e.at);
      }
    }
  }

  // ------------------------------------------------------------- the failure

  /** Calls of one caller, each as soon as the limits allow it. */
  function Calls(tiers: seq<Tier>, n: nat): seq<Event>
    requires Limited(tiers)
  {
    seq(n, i requires 0 <= i < n => Call("", Soonest(tiers, i)))
  }

  lemma CallsByOne(tiers: seq<Tier>, n: nat)
    requires Limited(tiers) && n > 0
    ensures Calls(tiers, n)[..n - 1] == Calls(tiers, n - 1)
    ensures Calls(tiers, n)[n - 1] == Call("", Soonest(tiers, n - 1))
    ensures Greedy(tiers, n) == Greedy(tiers, n - 1) + [Soonest(tiers, n - 1)]
  {
  }

  lemma CallsAreChronological(tiers: seq<Tier>, n: nat)
    requires Limited(tiers)
    ensures Chronological(Calls(tiers, n))
  {
    forall i, j | 0 <= i < j < n ensures Calls(tiers, n)[i].at <= Calls(tiers, n)[j].at {
      SoonestIsMonotone(tiers, i, j);
    }
  }

  predicate AllTrue(answers: seq<Option<bool>>) {
    forall i :: 0 <= i < |answers| ==> answers[i] == Some(true)
  }

  /** As meant, all of them are let in. */
  lemma {:induction false} GreedyCallsAreMeant(tiers: seq<Tier>, n: nat)
    requires Limited(tiers)
    ensures var meant := MeantRun(tiers, Calls(tiers, n));
            |meant.answers| == n && AllTrue(meant.answers) && LogOf(meant.logs, "") == Greedy(tiers, n)
  {
    hide Meant, Soonest;
    if n > 0 {
      CallsByOne(tiers, n);
      GreedyCallsAreMeant(tiers, n - 1);
      GreedyIsMeant(tiers, n - 1);
    }
  }

  /** If the script lets all of them in, its log is as meant. */
  lemma {:induction false} GreedyCallsAreLogged(tiers: seq<Tier>, n: nat)
    requires Limited(tiers)
    ensures AllTrue(Allowances(PlainRun(tiers, Calls(tiers, n)).answers)) ==>
              LogOf(PlainRun(tiers, Calls(tiers, n)).logs, "") == Greedy(tiers, n)
    ensures n > 0 && AllTrue(Allowances(PlainRun(tiers, Calls(tiers, n)).answers)) ==>
              && AllTrue(Allowances(PlainRun(tiers, Calls(tiers, n - 1)).answers))
              && PlainVerdict(Greedy(tiers, n - 1), tiers, Soonest(tiers, n - 1)).allowed
  {
    hide PlainVerdict, Soonest, Allowances, AllTrue;
    if n > 0 {
      CallsByOne(tiers, n);
      GreedyCallsAreLogged(tiers, n - 1);
      var before, after := PlainRun(tiers, Calls(tiers, n - 1)), PlainRun(tiers, Calls(tiers, n));
      var call := Call("", Soonest(tiers, n - 1));
      assert after == PlainStep(tiers, before, call);
      OneMoreAnswer(tiers, before, call);
    }
  }

  lemma OneMoreAnswer(tiers: seq<Tier>, before: Plain, call: Event)
    requires call.Call?
    ensures var allowed := PlainVerdict(LogOf(before.logs, call.key), tiers, call.at).allowed;
            Allowances(PlainStep(tiers, before, call).answers) == Allowances(before.answers) + [Some(allowed)]
    ensures AllTrue(Allowances(PlainStep(tiers, before, call).answers)) ==>
              && AllTrue(Allowances(before.answers))
              && PlainVerdict(LogOf(before.logs, call.key), tiers, call.at).allowed
  {
    hide PlainVerdict;
    var old', new' := Allowances(before.answers), Allowances(PlainStep(tiers, before, call).answers);
    assert forall i :: 0 <= i < |old'| ==> old'[i] == new'[i];
    assert new'[|old'|] == Some(PlainVerdict(LogOf(before.logs, call.key), tiers, call.at).allowed);
  }

  /** A tier that can be filled within its window refuses a hit its limit has room
      for. */
  lemma GreedyFills(tiers: seq<Tier>, tier: Tier)
    requires Windowed(tiers) && Limited(tiers) && tier in tiers && Weight(tiers, tier.window) >= 1
    requires Soonest(tiers, Fill(tier.limit, Weight(tiers, tier.window))) < tier.window
    ensures var fill := Fill(tier.limit, Weight(tiers, tier.window));
            !PlainVerdict(Greedy(tiers, fill), tiers, Soonest(tiers, fill)).allowed
  {
    hide PlainVerdict, CountAfter, Weight, Soonest;
    var weight := Weight(tiers, tier.window);
    var fill := Fill(tier.limit, weight);
    var log, now := Greedy(tiers, fill), Soonest(tiers, fill);
    GreedyAscends(tiers, fill);
    CountIsSuffix(log, now - tier.window, fill);
    FillIsLeast(tier.limit, weight, CountAfter(log, now - tier.window));
    assert Full(log, tiers, tier, now);
    VerdictMeansRoom(log, tiers, now);
  }

  /** The script answers every run as its limits say exactly when its tiers keep
      pace: a condition on the tiers alone, met by all tiers with windows of their
      own. */
  lemma {:induction false} RunsAreMeantIff(tiers: seq<Tier>)
    requires Windowed(tiers)
    ensures (forall events :: AnswersAsMeant(tiers, events)) <==> KeepsPace(tiers)
    ensures Harmless(tiers) ==> KeepsPace(tiers)
  {
    hide Run, PlainRun, MeantRun, KeepsPace, Windowed, Harmless, Allowances, Meant, PlainVerdict;
    if KeepsPace(tiers) {
      forall events ensures AnswersAsMeant(tiers, events) {
        if Chronological(events) {
          RunsArePlain(tiers, events);
          RunsKeepPace(tiers, events, LastInstant(events));
        }
      }
    } else {
      var events := OutpacedRun(tiers);
      assert !AnswersAsMeant(tiers, events);
    }
    if !KeepsPace(tiers) {
      var log, now := OutpacedLog(tiers);
      VerdictsAreMeantIff(tiers);
      assert PlainVerdict(log, tiers, now).allowed != Meant(log, tiers, now);
    }
  }

  lemma OutpacedLog(tiers: seq<Tier>) returns (log: seq<nat>, now: nat)
    requires Windowed(tiers) && !KeepsPace(tiers)
    ensures Meant(log, tiers, now) && !PlainVerdict(log, tiers, now).allowed
  {
    hide Weight, Soonest, PlainVerdict, Meant, Windowed;
    var i := OutpacedTier(tiers);
    var fill := Fill(tiers[i].limit, Weight(tiers, tiers[i].window));
    log, now := Greedy(tiers, fill), Soonest(tiers, fill);
    GreedyIsMeant(tiers, fill);
    GreedyFills(tiers, tiers[i]);
  }

  lemma OutpacedRun(tiers: seq<Tier>) returns (events: seq<Event>)
    requires Windowed(tiers) && !KeepsPace(tiers)
    ensures !AnswersAsMeant(tiers, events)
  {
    hide Run, PlainRun, MeantRun, Windowed, Weight, Soonest, Allowances;
    var i := OutpacedTier(tiers);
    var n := Fill(tiers[i].limit, Weight(tiers, tiers[i].window)) + 1;
    events := Calls(tiers, n);
    CallsAreChronological(tiers, n);
    RunsArePlain(tiers, events);
    GreedyCallsAreMeant(tiers, n);
    GreedyCallsAreLogged(tiers, n);
    GreedyFills(tiers, tiers[i]);
  }

  lemma OutpacedTier(tiers: seq<Tier>) returns (i: nat)
    requires !KeepsPace(tiers)
    ensures Limited(tiers) && i < |tiers| && Weight(tiers, tiers[i].window) >= 1
    ensures Soonest(tiers, Fill(tiers[i].limit, Weight(tiers, tiers[i].window))) < tiers[i].window
  {
    hide Weight, Soonest, DistinctWindows;
    forall l | 0 <= l < |tiers| ensures Weight(tiers, tiers[l].window) >= 1 {
      WeightOfTier(tiers, tiers[l]);
    }
    i :| 0 <= i < |tiers| && Soonest(tiers, Fill(tiers[i].limit, Weight(tiers, tiers[i].window))) < tiers[i].window;
  }

  /** A list that keeps pace though some log, which no run reaches, would show it
      up: its first tier spaces the hits out before the other two fill. */
  lemma PaceIsNotHarmlessness()
    ensures var tiers := [Tier(1, 10), Tier(3, 15), Tier(3, 15)];
            KeepsPace(tiers) && !Harmless(tiers)
  {
    var tiers := [Tier(1, 10), Tier(3, 15), Tier(3, 15)];
    assert tiers[1..] == [Tier(3, 15), Tier(3, 15)] && tiers[1..][1..] == [Tier(3, 15)];
    assert Weight(tiers, 10) == 1 && Weight(tiers, 15) == 2;
    SoonestForIsLater(tiers, tiers, 1);
    SoonestForIsLater(tiers, tiers, 2);
    assert Soonest(tiers, 1) >= 10 && Soonest(tiers, 2) >= 20;
    assert !KeptLow(tiers, tiers[1]);
  }
}
