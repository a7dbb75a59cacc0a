/** Counters clear themselves away: whatever is stored for a key may go one window
    after its last recorded hit, and refused calls keep nothing alive. */
module KeyExpiry {
  import opened Results
  import opened Redis
  import opened HitStore
  import opened RateLimit
  import opened RateLimitRuns
  import opened RateLimitRetry
  import opened Failures
  import opened FailureRuns

  predicate GoneBy(deadline: Option<nat>, at: nat) {
    deadline.Some? && deadline.value <= at
  }

  /** Both keys of a shelf may be expired from this moment on. */
  predicate Fades(shelf: Shelf, at: nat) {
    && (shelf.hits.Some? ==> GoneBy(shelf.hits.value.deadline, at))
    && (shelf.sequence.Some? ==> GoneBy(shelf.sequence.value.deadline, at))
  }

  lemma TrimmedFades(shelf: Shelf, window: nat, now: nat, at: nat)
    requires Fades(shelf, at)
    ensures Fades(Trimmed(shelf, window, now), at)
  {
  }

  lemma RecordedFades(shelf: Shelf, window: nat, now: nat, last: nat)
    requires now <= last
    ensures Fades(Recorded(shelf, window, now), last + window)
  {
  }

  lemma {:induction false} CheckedFades(db: Db, key: string, tiers: seq<Tier>, now: nat, wait: int, w: nat, at: nat)
    requires Fades(Look(db, RateLimits, w, key), at)
    ensures Fades(Look(CheckTiers(db, key, tiers, now, wait).0, RateLimits, w, key), at)
    decreases |tiers|
  {
    hide Look, Fades, Trimmed, LongerWait, Oldest, TrimTier;
    if tiers != [] {
      var tier := tiers[0];
      TrimTouchesOneShelf(db, RateLimits, tier.window, key, now, RateLimits, w, key);
      TrimmedFades(Look(db, RateLimits, w, key), w, now, at);
      var (db', wait') := CheckTier(db, key, tier, now, wait);
      CheckedFades(db', key, tiers[1..], now, wait', w, at);
    }
  }

  lemma {:induction false} RecordedTiersFade(db: Db, key: string, tiers: seq<Tier>, now: nat, w: nat, last: nat)
    requires Fades(Look(db, RateLimits, w, key), last + w) && now <= last
    ensures Fades(Look(RecordTiers(db, key, tiers, now), RateLimits, w, key), last + w)
    decreases |tiers|
  {
    hide Look, Fades, RecordTier, Recorded;
    if tiers != [] {
      var window := tiers[0].window;
      RecordTouchesOneShelf(db, RateLimits, window, key, now, RateLimits, w, key);
      RecordedFades(Look(db, RateLimits, w, key), w, now, last);
      RecordedTiersFade(RecordTier(db, RateLimits, window, key, now), key, tiers[1..], now, w, last);
    }
  }

  lemma CallFades(db: Db, key: string, tiers: seq<Tier>, now: nat, w: nat, last: nat)
    requires Fades(Look(db, RateLimits, w, key), last + w)
    requires AdmitOne(db, key, tiers, now).1.allowed ==> now <= last
    ensures Fades(Look(AdmitOne(db, key, tiers, now).0, RateLimits, w, key), last + w)
  {
    hide Look, Fades, CheckTiers, RecordTiers;
    CheckedFades(db, key, tiers, now, 0, w, last + w);
    var trimmed := CheckTiers(db, key, tiers, now, 0).0;
    if AdmitOne(db, key, tiers, now).1.allowed {
      RecordedTiersFade(trimmed, key, tiers, now, w, last);
    }
  }

  lemma DecayFades(shelf: Shelf, shelf': Shelf, now: nat, at: nat)
    requires Fades(shelf, at) && MayDecay(shelf, shelf', now)
    ensures Fades(shelf', at)
  {
  }

  /** No admitted call of the key comes after this instant. */
  predicate LastAdmitted(events: seq<Event>, answers: seq<Option<Verdict>>, key: string, last: nat)
    requires |events| == |answers|
  {
    forall i :: 0 <= i < |events| && events[i].Call? && events[i].key == key && Admitted(answers[i]) ==>
      events[i].at <= last
  }

  lemma {:induction false} OneAnswerEach(tiers: seq<Tier>, events: seq<Event>)
    ensures |Run(tiers, events).answers| == |events|
    ensures events != [] ==>
              Run(tiers, events[..|events| - 1]).answers == Run(tiers, events).answers[..|events| - 1]
  {
    hide AdmitOne, Evict;
    if events != [] {
      OneAnswerEach(tiers, events[..|events| - 1]);
    }
  }

  /** After every run, what the limiter stores for a key under a window may go one
      window after the key's last admitted call, however many were refused since. */
  lemma {:induction false} IdleKeysFade(tiers: seq<Tier>, events: seq<Event>, key: string, w: nat, last: nat)
    requires |Run(tiers, events).answers| == |events|
    requires LastAdmitted(events, Run(tiers, events).answers, key, last)
    ensures Fades(Look(Run(tiers, events).db, RateLimits, w, key), last + w)
  {
    if events != [] {
      hide Look, Fades, AdmitOne, Evict, MayDecay;
      var n := |events| - 1;
      OneAnswerEach(tiers, events);
      OneAnswerEach(tiers, events[..n]);
      IdleKeysFade(tiers, events[..n], key, w, last);
      var db := Run(tiers, events[..n]).db;
      match events[n]
      case Call(k, at) =>
        if k == key {
          CallFades(db, key, tiers, at, w, last);
        } else {
          AdmitTouchesOneKey(db, k, tiers, at, RateLimits, w, key);
        }
      case Expiry(name, at) =>
        EvictMayDecay(db, name, at, RateLimits, w, key);
        DecayFades(Look(db, RateLimits, w, key), Look(Evict(db, name, at), RateLimits, w, key), at, last + w);
    } else {
      NothingFades(RateLimits, w, key, last + w);
    }
  }

  lemma NothingFades(ns: Namespace, w: nat, key: string, at: nat)
    ensures Fades(Look(EMPTY, ns, w, key), at)
  {
  }

  /** And when both its names have been expired then, nothing of it is left. */
  lemma FadedKeysGo(db: Db, ns: Namespace, w: nat, key: string, at: nat, now: nat)
    requires Fades(Look(db, ns, w, key), at) && at <= now
    ensures Look(Evict(Evict(db, HitsKey(ns, w, key), now), SequenceKey(ns, w, key), now), ns, w, key) == BARE
  {
    KeysNeverCollide(ns, w, key, ns, w, key);
    hide HitsKey, SequenceKey;
  }

  // ------------------------------------------------------- failure counters

  lemma {:induction false} FailureFades(db: Db, key: string, tiers: seq<Tier>, now: nat, w: nat, last: nat)
    requires Fades(Look(db, FailureCounts, w, key), last + w) && now <= last
    ensures Fades(Look(RecordFailure(db, key, tiers, now), FailureCounts, w, key), last + w)
    decreases |tiers|
  {
    hide Look, Fades, RecordTier, TrimTier, Recorded, Trimmed;
    if tiers != [] {
      var window := tiers[0].window;
      var trimmed := TrimTier(db, FailureCounts, window, key, now);
      TrimTouchesOneShelf(db, FailureCounts, window, key, now, FailureCounts, w, key);
      TrimmedFades(Look(db, FailureCounts, w, key), w, now, last + w);
      RecordTouchesOneShelf(trimmed, FailureCounts, window, key, now, FailureCounts, w, key);
      RecordedFades(Look(trimmed, FailureCounts, w, key), w, now, last);
      FailureFades(RecordFailureTier(db, key, window, now), key, tiers[1..], now, w, last);
    }
  }

  /** As for calls, so for failures: what is stored for a key may go one window
      after the last failure recorded, and checks keep nothing alive. */
  lemma {:induction false} IdleFailuresFade(tiersOf: Tiering, steps: seq<Step>, key: string, w: nat, last: nat)
    requires forall i :: 0 <= i < |steps| && steps[i].Record? && steps[i].key == key ==> steps[i].at <= last
    ensures Fades(Look(Happened(tiersOf, steps).db, FailureCounts, w, key), last + w)
  {
    if steps != [] {
      hide Look, Fades, CheckKey, RecordFailure, Forget, Evict, MayDecay;
      var n := |steps| - 1;
      IdleFailuresFade(tiersOf, steps[..n], key, w, last);
      var db := Happened(tiersOf, steps[..n]).db;
      match steps[n]
      case Record(k, at) =>
        if k == key {
          FailureFades(db, key, tiersOf(key), at, w, last);
        } else {
          RecordFailureTouchesOneKey(db, k, tiersOf(k), at, FailureCounts, w, key);
        }
      case Reset(k, _) =>
        ForgetClears(db, k, tiersOf(k), FailureCounts, w, key);
        BareFades(last + w);
      case Lapse(name, at) =>
        EvictMayDecay(db, name, at, FailureCounts, w, key);
        DecayFades(Look(db, FailureCounts, w, key), Look(Evict(db, name, at), FailureCounts, w, key), at, last + w);
      case _ =>
    } else {
      NothingFades(FailureCounts, w, key, last + w);
    }
  }

  lemma BareFades(at: nat)
    ensures Fades(BARE, at)
  {
  }
}
