/** The failure counter: a check that only reads, a record that never refuses,
    and a reset that forgets, as three separate scripts over the same keys. */
module Failures {
  import opened Results
  import opened Redis
  import opened HitStore
  import opened RateLimit

  // ----------------------------------------------------------- the scripts

  function CountTier(db: Db, key: string, tier: Tier, now: nat, wait: int): int {
    var alive := After(Members(db, HitsKey(FailureCounts, tier.window, key)), now - tier.window);
    LongerWait(|alive| >= tier.limit, Retry(Oldest(alive), tier.window, now), wait)
  }

  function CountFailures(db: Db, key: string, tiers: seq<Tier>, now: nat, wait: int): int
    decreases |tiers|
  {
    if tiers == [] then wait
    else CountFailures(db, key, tiers[1..], now, CountTier(db, key, tiers[0], now, wait))
  }

  function CheckKey(db: Db, key: string, tiers: seq<Tier>, now: nat): Verdict {
    var wait := CountFailures(db, key, tiers, now, 0);
    if wait > 0 then Verdict(false, wait) else Verdict(true, 0)
  }

  function RecordFailureTier(db: Db, key: string, window: nat, now: nat): Db {
    RecordTier(TrimTier(db, FailureCounts, window, key, now), FailureCounts, window, key, now)
  }

  function RecordFailure(db: Db, key: string, tiers: seq<Tier>, now: nat): Db
    decreases |tiers|
  {
    if tiers == [] then db
    else RecordFailure(RecordFailureTier(db, key, tiers[0].window, now), key, tiers[1..], now)
  }

  function ForgetTier(db: Db, key: string, window: nat): Db {
    Del(Del(db, HitsKey(FailureCounts, window, key)), SequenceKey(FailureCounts, window, key))
  }

  function Forget(db: Db, key: string, tiers: seq<Tier>): Db
    decreases |tiers|
  {
    if tiers == [] then db else Forget(ForgetTier(db, key, tiers[0].window), key, tiers[1..])
  }

  class FailureCounter {
    const client: Client
    const tiers: seq<Tier>

    constructor (client: Client, tiers: seq<Tier>)
      ensures this.client == client && this.tiers == tiers
    {
      this.client := client;
      this.tiers := tiers;
    }

    method CountFailuresScript(key: string, now: nat) returns (verdict: Verdict)
      ensures verdict == CheckKey(client.db, key, tiers, now)
    {
      hide CountTier;
      var wait := 0;
      assert tiers[0..] == tiers;
      for i := 0 to |tiers|
        invariant CountFailures(client.db, key, tiers, now, 0)
                  == CountFailures(client.db, key, tiers[i..], now, wait)
      {
        assert tiers[i..][1..] == tiers[i + 1..];
        wait := CheckOneTier(key, tiers[i], now, wait);
      }
      return if wait > 0 then Verdict(false, wait) else Verdict(true, 0);
    }

    /** Reads, and never writes. The script never refuses with a wait that is not
        positive, so the guard against one is never taken; a call that is not
        answered is neither verdict. */
    method Check(key: string, now: nat, line: Line) returns (answer: Option<Verdict>)
      ensures answer == if tiers == [] || line.Up? then Some(CheckKey(client.db, key, tiers, now)) else None
    {
      if |tiers| == 0 {
        return Some(Verdict(true, 0));
      }
      if line.Down? {
        return None;
      }
      var verdict := CountFailuresScript(key, now);
      if verdict.allowed {
        return Some(Verdict(true, 0));
      }
      if verdict.wait <= 0 {
        return Some(Verdict(false, LongestWindow(tiers)));
      }
      return Some(Verdict(false, verdict.wait));
    }

    method CheckOneTier(key: string, tier: Tier, now: nat, wait: int) returns (wait': int)
      ensures wait' == CountTier(client.db, key, tier, now, wait)
    {
      hide HitsKey, Oldest, Members, After;
      wait' := wait;
      var alive := After(Members(client.db, HitsKey(FailureCounts, tier.window, key)), now - tier.window);
      if |alive| >= tier.limit {
        var oldest := Oldest(alive);
        var retry := tier.window as int;
        if oldest.Some? {
          retry := oldest.value + tier.window - now;
        }
        if retry > wait {
          wait' := retry;
        }
      }
    }

    method RecordFailureScript(key: string, now: nat)
      modifies client
      ensures client.db == RecordFailure(old(client.db), key, tiers, now)
    {
      hide RecordFailureTier;
      ghost var start := client.db;
      assert tiers[0..] == tiers;
      for i := 0 to |tiers|
        invariant RecordFailure(start, key, tiers, now) == RecordFailure(client.db, key, tiers[i..], now)
      {
        assert tiers[i..][1..] == tiers[i + 1..];
        RecordOneTier(key, tiers[i].window, now);
      }
    }

    /** Counts the failure in every tier; `done` is false when nobody answered. */
    method Record(key: string, now: nat, line: Line) returns (done: bool)
      modifies client
      ensures done <==> tiers == [] || line.Up?
      ensures client.db == if Reaches(line) then RecordFailure(old(client.db), key, tiers, now) else old(client.db)
    {
      if |tiers| == 0 {
        return true;
      }
      if Reaches(line) {
        RecordFailureScript(key, now);
      }
      return line.Up?;
    }

    method RecordOneTier(key: string, window: nat, now: nat)
      modifies client
      ensures client.db == RecordFailureTier(old(client.db), key, window, now)
    {
      hide HitsKey, SequenceKey, MemberName, ZRemRangeByScore;
      var hits, sequence := HitsKey(FailureCounts, window, key), SequenceKey(FailureCounts, window, key);
      client.db := ZRemRangeByScore(client.db, hits, now - window);
      var (db, n) := Incr(client.db, sequence);
      client.db := ZAdd(db, hits, now, MemberName(now, n));
      client.db := PExpireSet(client.db, hits, now, window);
      client.db := PExpireCounter(client.db, sequence, now, window);
    }

    method DeleteKeys(key: string)
      modifies client
      ensures client.db == Forget(old(client.db), key, tiers)
    {
      hide ForgetTier;
      ghost var start := client.db;
      assert tiers[0..] == tiers;
      for i := 0 to |tiers|
        invariant Forget(start, key, tiers) == Forget(client.db, key, tiers[i..])
      {
        assert tiers[i..][1..] == tiers[i + 1..];
        client.db := ForgetTier(client.db, key, tiers[i].window);
      }
    }

    /** Forgets the failures of every tier; `done` is false when nobody answered. */
    method Reset(key: string, line: Line) returns (done: bool)
      modifies client
      ensures done <==> tiers == [] || line.Up?
      ensures client.db == if Reaches(line) then Forget(old(client.db), key, tiers) else old(client.db)
    {
      if |tiers| == 0 {
        return true;
      }
      if Reaches(line) {
        DeleteKeys(key);
      }
      return line.Up?;
    }
  }

  // ------------------------------------------------- agreement with a log

  lemma TierReadsTheLog(db: Db, key: string, tiers: seq<Tier>, tier: Tier, now: nat, wait: int, log: seq<nat>)
    requires KeyTracks(db, FailureCounts, tiers, key, log, now) && tier in tiers
    ensures CountTier(db, key, tier, now, wait) == PlainTierWait(log, tiers, tier, now, wait)
  {
    hide Oldest, OldestAfter, CountAfter, Weight, Tracks, Look, Members, HitsKey, DistinctWindows;
    var shelf := Look(db, FailureCounts, tier.window, key);
    var weight := Weight(tiers, tier.window);
    LookMembers(db, FailureCounts, tier.window, key);
    WeightOfTier(tiers, tier);
    TrimKeepsTrack(shelf, log, tier.window, weight, 0, now);
    TrimmedMembers(shelf, tier.window, now);
    hide Trimmed;
    OldestAgrees(Trimmed(shelf, tier.window, now), log, tier.window, weight, now);
  }

  lemma TrimmedMembers(shelf: Shelf, window: nat, now: nat)
    ensures Trimmed(shelf, window, now).Members() == After(shelf.Members(), now - window)
  {
  }

  lemma {:induction false} CountReadsTheLog(db: Db, key: string, tiers: seq<Tier>, k: nat, now: nat,
                                           wait: int, log: seq<nat>)
    requires KeyTracks(db, FailureCounts, tiers, key, log, now) && k <= |tiers|
    ensures CountFailures(db, key, tiers[k..], now, wait) == PlainWait(log, tiers, tiers[k..], now, wait)
    decreases |tiers| - k
  {
    hide CountTier, PlainTierWait, KeyTracks;
    if k < |tiers| {
      assert tiers[k..][0] == tiers[k] && tiers[k..][1..] == tiers[k + 1..];
      TierReadsTheLog(db, key, tiers, tiers[k], now, wait, log);
      CountReadsTheLog(db, key, tiers, k + 1, now, CountTier(db, key, tiers[k], now, wait), log);
    }
  }

  /** Stepping over the dead without deleting them gives the log's verdict. */
  lemma CheckReadsTheLog(db: Db, key: string, tiers: seq<Tier>, now: nat, log: seq<nat>)
    requires KeyTracks(db, FailureCounts, tiers, key, log, now)
    ensures CheckKey(db, key, tiers, now) == PlainVerdict(log, tiers, now)
  {
    hide CountFailures, PlainWait, KeyTracks;
    CountReadsTheLog(db, key, tiers, 0, now, 0, log);
    assert tiers[0..] == tiers;
  }

  lemma RecordTierAdds(db: Db, key: string, w: nat, now: nat, window: nat, log: seq<nat>, weight: nat, extra: nat)
    requires w >= 1 && Tracks(Look(db, FailureCounts, window, key), log, window, weight, extra, now)
    ensures var db' := RecordFailureTier(db, key, w, now);
            Tracks(Look(db', FailureCounts, window, key), log, window, weight,
                   extra + (if w == window then 1 else 0), now)
  {
    hide Look, Tracks, RecordTier, TrimTier, Recorded, Trimmed, AllLive;
    var trimmed := TrimTier(db, FailureCounts, w, key, now);
    TrimTouchesOneShelf(db, FailureCounts, w, key, now, FailureCounts, window, key);
    RecordTouchesOneShelf(trimmed, FailureCounts, w, key, now, FailureCounts, window, key);
    if w == window {
      TrimKeepsTrack(Look(db, FailureCounts, window, key), log, window, weight, extra, now);
      RecordKeepsTrack(Look(trimmed, FailureCounts, window, key), log, window, weight, extra, now);
    }
  }

  lemma {:induction false} RecordAddsToWindow(db: Db, key: string, tiers: seq<Tier>, now: nat,
                                              window: nat, log: seq<nat>, weight: nat, extra: nat)
    requires Windowed(tiers) && Tracks(Look(db, FailureCounts, window, key), log, window, weight, extra, now)
    ensures var db' := RecordFailure(db, key, tiers, now);
            Tracks(Look(db', FailureCounts, window, key), log, window, weight, extra + Weight(tiers, window), now)
    decreases |tiers|
  {
    hide Look, Tracks, RecordFailureTier;
    if tiers != [] {
      var w := tiers[0].window;
      RecordTierAdds(db, key, w, now, window, log, weight, extra);
      RecordAddsToWindow(RecordFailureTier(db, key, w, now), key, tiers[1..], now, window, log, weight,
                         extra + if w == window then 1 else 0);
    }
  }

  /** Recording logs one failure in every tier. */
  lemma RecordLogsTheFailure(db: Db, key: string, tiers: seq<Tier>, now: nat, log: seq<nat>)
    requires Windowed(tiers) && KeyTracks(db, FailureCounts, tiers, key, log, now)
    ensures KeyTracks(RecordFailure(db, key, tiers, now), FailureCounts, tiers, key, log + [now], now)
  {
    hide RecordFailure, Tracks, Look, Weight;
    var recorded := RecordFailure(db, key, tiers, now);
    forall i | 0 <= i < |tiers|
      ensures var w := tiers[i].window;
              Tracks(Look(recorded, FailureCounts, w, key), log + [now], w, Weight(tiers, w), 0, now)
    {
      var w := tiers[i].window;
      RecordAddsToWindow(db, key, tiers, now, w, log, Weight(tiers, w), 0);
      HitIsLogged(Look(recorded, FailureCounts, w, key), log, w, Weight(tiers, w), now);
    }
  }

  lemma ForgetTouchesOneShelf(db: Db, key: string, window: nat, ns: Namespace, w: nat, other: string)
    ensures Look(ForgetTier(db, key, window), ns, w, other) ==
            if (ns, w, other) == (FailureCounts, window, key) then BARE else Look(db, ns, w, other)
  {
    KeysNeverCollide(FailureCounts, window, key, ns, w, other);
    KeysNeverCollide(ns, w, other, FailureCounts, window, key);
    hide HitsKey, SequenceKey;
  }

  lemma {:induction false} ForgetClears(db: Db, key: string, tiers: seq<Tier>, ns: Namespace, w: nat, other: string)
    ensures Look(Forget(db, key, tiers), ns, w, other) ==
            if (ns, other) == (FailureCounts, key) && Weight(tiers, w) > 0 then BARE else Look(db, ns, w, other)
    decreases |tiers|
  {
    hide Look, ForgetTier;
    if tiers != [] {
      ForgetTouchesOneShelf(db, key, tiers[0].window, ns, w, other);
      ForgetClears(ForgetTier(db, key, tiers[0].window), key, tiers[1..], ns, w, other);
    }
  }

  /** A reset reaches every tier. */
  lemma ResetEmptiesTheLog(db: Db, key: string, tiers: seq<Tier>, now: nat)
    ensures KeyTracks(Forget(db, key, tiers), FailureCounts, tiers, key, [], now)
  {
    hide Tracks, Look, Forget, Weight;
    forall i | 0 <= i < |tiers|
      ensures var w := tiers[i].window;
              Tracks(Look(Forget(db, key, tiers), FailureCounts, w, key), [], w, Weight(tiers, w), 0, now)
    {
      var w := tiers[i].window;
      WeightOfTier(tiers, tiers[i]);
      ForgetClears(db, key, tiers, FailureCounts, w, key);
      BareTracks(w, Weight(tiers, w), now);
    }
  }

  lemma {:induction false} RecordFailureTouchesOneKey(db: Db, key: string, tiers: seq<Tier>, now: nat,
                                                      ns: Namespace, w: nat, other: string)
    requires (ns, other) != (FailureCounts, key)
    ensures Look(RecordFailure(db, key, tiers, now), ns, w, other) == Look(db, ns, w, other)
    decreases |tiers|
  {
    hide Look, RecordTier, TrimTier;
    if tiers != [] {
      var window := tiers[0].window;
      TrimTouchesOneShelf(db, FailureCounts, window, key, now, ns, w, other);
      RecordTouchesOneShelf(TrimTier(db, FailureCounts, window, key, now), FailureCounts, window,
                            key, now, ns, w, other);
      RecordFailureTouchesOneKey(RecordFailureTier(db, key, window, now), key, tiers[1..], now, ns, w, other);
    }
  }

  /** Recording or resetting one key leaves the log of every other in force. */
  lemma OtherKeysKeepTrack(db: Db, key: string, tiers: seq<Tier>, now: nat,
                           others: seq<Tier>, other: string, log: seq<nat>)
    requires other != key && KeyTracks(db, FailureCounts, others, other, log, now)
    ensures KeyTracks(RecordFailure(db, key, tiers, now), FailureCounts, others, other, log, now)
    ensures KeyTracks(Forget(db, key, tiers), FailureCounts, others, other, log, now)
  {
    hide Look, RecordFailure, Forget, Tracks;
    forall i | 0 <= i < |others|
      ensures Look(RecordFailure(db, key, tiers, now), FailureCounts, others[i].window, other)
              == Look(db, FailureCounts, others[i].window, other)
      ensures Look(Forget(db, key, tiers), FailureCounts, others[i].window, other)
              == Look(db, FailureCounts, others[i].window, other)
    {
      RecordFailureTouchesOneKey(db, key, tiers, now, FailureCounts, others[i].window, other);
      ForgetClears(db, key, tiers, FailureCounts, others[i].window, other);
    }
  }
}
