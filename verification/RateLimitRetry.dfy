/** Two consequences for a caller: the wait a refusal names is exact to the
    millisecond, and a refused call changes nothing for anybody. */
module RateLimitRetry {
  import opened Results
  import opened HitStore
  import opened RateLimit
  import opened RateLimitRuns
  import opened RateLimitLaws

  predicate Limited(tiers: seq<Tier>) {
    forall i :: 0 <= i < |tiers| ==> tiers[i].limit >= 1
  }

  // ------------------------------------------------------- on a fixed log

  lemma StaysFull(log: seq<nat>, tiers: seq<Tier>, tier: Tier, now: nat, t: nat)
    requires Full(log, tiers, tier, now) && now <= t < now + RetryOf(log, tier, now)
    ensures Full(log, tiers, tier, t)
  {
    hide Weight, CountAfter, OldestAfter;
    var bound := now - tier.window;
    if OldestAfter(log, bound).Some? {
      OldestLeavesFirst(log, bound, t - tier.window);
    } else {
      CountIsAntitone(log, bound, t - tier.window);
    }
  }

  lemma HasRoomAgain(log: seq<nat>, tiers: seq<Tier>, tier: Tier, now: nat, t: nat)
    requires Admissible(log, tiers) && NoLaterThan(log, now) && tier in tiers && tier.limit >= 1 && now <= t
    requires Full(log, tiers, tier, now) ==> t >= now + RetryOf(log, tier, now)
    ensures !Full(log, tiers, tier, t)
  {
    hide Weight, CountAfter, OldestAfter, Admissible, NoLaterThan;
    var bound, later := now - tier.window, t - tier.window;
    var held, left := CountAfter(log, bound), CountAfter(log, later);
    CountIsAntitone(log, bound, later);
    if Full(log, tiers, tier, now) {
      assert held > 0 by {
        if held == 0 {
          assert Weight(tiers, tier.window) * held == 0;
        }
      }
      OldestLeavesFirst(log, bound, later);
      LastHitHadRoom(log, tiers, tier, now);
      FactorIsMonotone(Weight(tiers, tier.window), left, held - 1);
    } else {
      FactorIsMonotone(Weight(tiers, tier.window), left, held);
    }
  }

  /** While no hit is added, a refusal stands until its wait is over and, where
      every limit admits something, not a millisecond longer. */
  lemma WaitIsExact(log: seq<nat>, tiers: seq<Tier>, now: nat, t: nat)
    requires Windowed(tiers) && Admissible(log, tiers) && NoLaterThan(log, now) && now <= t
    requires !PlainVerdict(log, tiers, now).allowed
    ensures t < now + PlainVerdict(log, tiers, now).wait ==> !PlainVerdict(log, tiers, t).allowed
    ensures t >= now + PlainVerdict(log, tiers, now).wait && Limited(tiers) ==> PlainVerdict(log, tiers, t).allowed
  {
    WaitIsTheLongest(log, tiers, tiers, now, 0);
    VerdictMeansRoom(log, tiers, now);
    VerdictMeansRoom(log, tiers, t);
    var wait := PlainVerdict(log, tiers, now).wait;
    assert wait == PlainWait(log, tiers, tiers, now, 0);
    hide PlainVerdict, PlainWait, Full, RetryOf, Admissible, NoLaterThan;
    if t < now + wait {
      var i :| 0 <= i < |tiers| && Full(log, tiers, tiers[i], now) && wait == RetryOf(log, tiers[i], now);
      StaysFull(log, tiers, tiers[i], now, t);
    } else if Limited(tiers) {
      forall i | 0 <= i < |tiers| ensures !Full(log, tiers, tiers[i], t) {
        HasRoomAgain(log, tiers, tiers[i], now, t);
      }
    }
  }

  // ------------------------------------------------------- over whole runs

  predicate OnKey(e: Event, key: string) {
    e.Call? && e.key == key
  }

  predicate Refused(answer: Option<Verdict>) {
    answer.Some? && !answer.value.allowed
  }

  predicate Admitted(answer: Option<Verdict>) {
    answer.Some? && answer.value.allowed
  }

  lemma AnswersExtend(tiers: seq<Tier>, events: seq<Event>, e: Event)
    ensures PlainRun(tiers, events + [e]) == PlainStep(tiers, PlainRun(tiers, events), e)
    ensures PlainRun(tiers, events + [e]).answers[..|events|] == PlainRun(tiers, events).answers
  {
    assert (events + [e])[..|events|] == events;
    hide PlainVerdict;
  }

  /** Calls on a key while its refusal stands are refused too, and so leave its
      log as it was. */
  lemma {:induction false} LogStandsStill(tiers: seq<Tier>, start: seq<Event>, key: string, now: nat, more: seq<Event>)
    requires Windowed(tiers)
    requires var log := LogOf(PlainRun(tiers, start).logs, key);
             && Admissible(log, tiers) && NoLaterThan(log, now) && !PlainVerdict(log, tiers, now).allowed
             && (forall i :: 0 <= i < |more| ==> now <= more[i].at)
             && forall i :: 0 <= i < |more| && OnKey(more[i], key) ==>
                  more[i].at < now + PlainVerdict(log, tiers, now).wait
    ensures LogOf(PlainRun(tiers, start + more).logs, key) == LogOf(PlainRun(tiers, start).logs, key)
    ensures forall i :: 0 <= i < |more| && OnKey(more[i], key) ==>
              Refused(PlainRun(tiers, start + more).answers[|start| + i])
  {
    hide PlainVerdict, Admissible, NoLaterThan, PlainRun;
    if more == [] {
      assert start + more == start;
    } else {
      var n := |more| - 1;
      var front, last := more[..n], more[n];
      LogStandsStill(tiers, start, key, now, front);
      assert start + more == (start + front) + [last];
      AnswersExtend(tiers, start + front, last);
      var log := LogOf(PlainRun(tiers, start).logs, key);
      if OnKey(last, key) {
        WaitIsExact(log, tiers, now, last.at);
      }
      var before, after := PlainRun(tiers, start + front), PlainRun(tiers, start + more);
      forall i | 0 <= i < |more| && OnKey(more[i], key) ensures Refused(after.answers[|start| + i]) {
        if i < n {
          assert front[i] == more[i] && after.answers[|start| + i] == before.answers[|start| + i];
        }
      }
    }
  }

  /** A refusal at `now` names a wait in (0, longest window]. Whatever anybody
      does meanwhile, every call on the key before it is over is refused, and
      the first call at or after it is admitted. */
  lemma RetryAfterIsExact(tiers: seq<Tier>, events: seq<Event>, key: string, now: nat, more: seq<Event>, t: nat)
    requires Windowed(tiers) && Chronological(events + [Call(key, now)] + more + [Call(key, t)])
    requires var refused := Run(tiers, events + [Call(key, now)]).answers;
             && |refused| == |events| + 1 && Refused(refused[|events|])
             && forall i :: 0 <= i < |more| && OnKey(more[i], key) ==> more[i].at < now + refused[|events|].value.wait
    ensures var wait := Run(tiers, events + [Call(key, now)]).answers[|events|].value.wait;
            var all := Run(tiers, events + [Call(key, now)] + more + [Call(key, t)]).answers;
            var n := |events| + 1;
            && 0 < wait <= LongestWindow(tiers)
            && |all| == n + |more| + 1
            && (forall i :: 0 <= i < |more| && OnKey(more[i], key) ==> Refused(all[n + i]))
            && (t < now + wait ==> Refused(all[n + |more|]))
            && (t >= now + wait && Limited(tiers) ==> Admitted(all[n + |more|]))
  {
    hide Run, PlainRun, PlainVerdict, Admissible, NoLaterThan, LongestWindow;
    var start := events + [Call(key, now)];
    var whole := start + more + [Call(key, t)];
    OrderOfParts(events, key, now, more, t);
    RunsRefineTheLog(tiers, start, now);
    RunsRefineTheLog(tiers, whole, t);
    RunsAreAdmissible(tiers, events, now);
    var log := LogOf(PlainRun(tiers, events).logs, key);
    assert Admissible(log, tiers) && NoLaterThan(log, now);
    AnswersExtend(tiers, events, Call(key, now));
    VerdictMeansRoom(log, tiers, now);
    LogStandsStill(tiers, start, key, now, more);
    AnswersExtend(tiers, start + more, Call(key, t));
    WaitIsExact(log, tiers, now, t);
    var all, upTo := PlainRun(tiers, whole).answers, PlainRun(tiers, start + more).answers;
    forall i | 0 <= i < |more| && OnKey(more[i], key) ensures Refused(all[|start| + i]) {
      assert all[|start| + i] == upTo[|start| + i];
    }
  }

  lemma OrderOfParts(events: seq<Event>, key: string, now: nat, more: seq<Event>, t: nat)
    requires Chronological(events + [Call(key, now)] + more + [Call(key, t)])
    ensures Chronological(events) && Chronological(events + [Call(key, now)])
    ensures forall i :: 0 <= i < |events| ==> events[i].at <= now
    ensures forall i :: 0 <= i < |more| ==> now <= more[i].at
    ensures now <= t
    ensures var whole := events + [Call(key, now)] + more + [Call(key, t)];
            forall i :: 0 <= i < |whole| ==> whole[i].at <= t
    ensures var start := events + [Call(key, now)]; forall i :: 0 <= i < |start| ==> start[i].at <= now
  {
    hide Chronological;
    var start := events + [Call(key, now)];
    ChronologicalParts(start + more, [Call(key, t)]);
    ChronologicalParts(start, more);
    ChronologicalParts(events, [Call(key, now)]);
    assert start[|events|].at == now && (start + more)[|events|].at == now;
    var last := [Call(key, t)][0];
    forall i | 0 <= i < |start + more| ensures (start + more)[i].at <= t {
      assert (start + more)[i].at <= last.at;
    }
    forall i | 0 <= i < |events| ensures events[i].at <= now {
      assert events[i].at <= [Call(key, now)][0].at;
    }
    forall i | 0 <= i < |more| ensures now <= more[i].at {
      assert start[|events|].at <= more[i].at;
    }
  }

  lemma ChronologicalParts(a: seq<Event>, b: seq<Event>)
    requires Chronological(a + b)
    ensures Chronological(a) && Chronological(b)
    ensures forall i, j :: 0 <= i < |a| && 0 <= j < |b| ==> a[i].at <= b[j].at
  {
    var c := a + b;
    assert forall i :: 0 <= i < |a| ==> c[i] == a[i];
    forall j | 0 <= j < |b| ensures c[|a| + j] == b[j] {
    }
    forall i, j | 0 <= i < |a| && 0 <= j < |b| ensures a[i].at <= b[j].at {
      assert c[i].at <= c[|a| + j].at;
    }
    forall i, j | 0 <= i < j < |b| ensures b[i].at <= b[j].at {
      assert c[|a| + i].at <= c[|a| + j].at;
    }
  }

  /** Retry-After in whole seconds, rounded up and never zero. */
  function RetryAfterSeconds(wait: int): int {
    var seconds := (wait + 999) / 1000;
    if seconds < 1 then 1 else seconds
  }

  /** The least positive number of whole seconds that covers the wait. */
  lemma RetryAfterIsLeast(wait: int, seconds: int)
    ensures seconds == RetryAfterSeconds(wait) <==>
            && seconds >= 1 && 1000 * seconds >= wait
            && forall t :: t >= 1 && 1000 * t >= wait ==> seconds <= t
  {
    var least := RetryAfterSeconds(wait);
    assert least >= 1 && 1000 * least >= wait;
    assert forall t :: t >= 1 && 1000 * t >= wait ==> least <= t;
  }

  /** A client that waits the seconds it was told, alone on its key, is let in. */
  lemma ObedientClientIsAdmitted(tiers: seq<Tier>, events: seq<Event>, key: string, now: nat, more: seq<Event>, t: nat)
    requires Windowed(tiers) && Limited(tiers) && Chronological(events + [Call(key, now)] + more + [Call(key, t)])
    requires forall i :: 0 <= i < |more| ==> !OnKey(more[i], key)
    requires var refused := Run(tiers, events + [Call(key, now)]).answers;
             && |refused| == |events| + 1 && Refused(refused[|events|])
             && t >= now + 1000 * RetryAfterSeconds(refused[|events|].value.wait)
    ensures var all := Run(tiers, events + [Call(key, now)] + more + [Call(key, t)]).answers;
            all != [] && Admitted(all[|all| - 1])
  {
    hide Run;
    RetryAfterIsExact(tiers, events, key, now, more, t);
  }

  // ------------------------------------------------- refusals leave no trace

  /** The run without its refused calls. */
  function Kept(tiers: seq<Tier>, events: seq<Event>): seq<Event> {
    if events == [] then []
    else
      var n := |events| - 1;
      var answers := Run(tiers, events).answers;
      Kept(tiers, events[..n]) + if answers != [] && Refused(answers[|answers| - 1]) then [] else [events[n]]
  }

  function KeptAnswers(answers: seq<Option<Verdict>>): seq<Option<Verdict>> {
    if answers == [] then []
    else
      var n := |answers| - 1;
      KeptAnswers(answers[..n]) + if Refused(answers[n]) then [] else [answers[n]]
  }

  lemma {:induction false} KeptIsChronological(tiers: seq<Tier>, events: seq<Event>, now: nat)
    requires Chronological(events) && forall i :: 0 <= i < |events| ==> events[i].at <= now
    ensures var kept := Kept(tiers, events);
            Chronological(kept) && forall i :: 0 <= i < |kept| ==> kept[i].at <= now
  {
    hide Run, Refused;
    if events != [] {
      KeptIsChronological(tiers, events[..|events| - 1], events[|events| - 1].at);
    }
  }

  lemma {:induction false} PlainKept(tiers: seq<Tier>, events: seq<Event>, now: nat)
    requires Windowed(tiers) && Chronological(events)
    requires forall i :: 0 <= i < |events| ==> events[i].at <= now
    ensures PlainRun(tiers, Kept(tiers, events)).logs == PlainRun(tiers, events).logs
    ensures PlainRun(tiers, Kept(tiers, events)).answers == KeptAnswers(PlainRun(tiers, events).answers)
  {
    hide Run, PlainRun, PlainVerdict;
    if events == [] {
      assert Kept(tiers, events) == [];
      NoAnswers(tiers);
    } else {
      var n := |events| - 1;
      var front, last := events[..n], events[n];
      assert events == front + [last];
      PlainKept(tiers, front, last.at);
      RunsRefineTheLog(tiers, events, now);
      AnswersExtend(tiers, front, last);
      var answers := PlainRun(tiers, events).answers;
      assert answers[..n] == PlainRun(tiers, front).answers;
      if !Refused(answers[n]) {
        assert Kept(tiers, events) == Kept(tiers, front) + [last];
        AnswersExtend(tiers, Kept(tiers, front), last);
      } else {
        assert Kept(tiers, events) == Kept(tiers, front);
      }
    }
  }

  lemma NoAnswers(tiers: seq<Tier>)
    ensures PlainRun(tiers, []) == Plain(map[], []) && KeptAnswers([]) == []
  {
  }

  /** Deleting every refused call from a run changes no other answer, nor any
      answer still to come. */
  lemma RefusalsLeaveNoTrace(tiers: seq<Tier>, events: seq<Event>, key: string, t: nat)
    requires Windowed(tiers) && Chronological(events)
    requires forall i :: 0 <= i < |events| ==> events[i].at <= t
    ensures Run(tiers, Kept(tiers, events)).answers == KeptAnswers(Run(tiers, events).answers)
    ensures var with, without := Run(tiers, events + [Call(key, t)]).answers,
                                 Run(tiers, Kept(tiers, events) + [Call(key, t)]).answers;
            with != [] && without != [] && with[|with| - 1] == without[|without| - 1]
  {
    hide Run, PlainRun, PlainVerdict, Kept, KeptAnswers;
    var kept := Kept(tiers, events);
    PlainKept(tiers, events, t);
    KeptIsChronological(tiers, events, t);
    RunsRefineTheLog(tiers, events, t);
    RunsRefineTheLog(tiers, kept, t);
    RunsRefineTheLog(tiers, events + [Call(key, t)], t);
    RunsRefineTheLog(tiers, kept + [Call(key, t)], t);
    AnswersExtend(tiers, events, Call(key, t));
    AnswersExtend(tiers, kept, Call(key, t));
  }
}
