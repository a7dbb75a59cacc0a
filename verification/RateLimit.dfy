/** The layered sliding window: the script that admits a hit when every tier has
    room, and the plain log it is indistinguishable from. */
module RateLimit {
  import opened Results
  import opened Redis
  import opened HitStore

  datatype Verdict = Verdict(allowed: bool, wait: int)

  predicate Windowed(tiers: seq<Tier>) {
    forall i :: 0 <= i < |tiers| ==> tiers[i].window >= 1
  }

  // ------------------------------------------------------------ the script

  function Retry(oldest: Option<nat>, window: nat, now: nat): int {
    if oldest.Some? then oldest.value + window - now else window
  }

  function LongerWait(full: bool, retry: int, wait: int): int {
    if full && retry > wait then retry else wait
  }

  /** Trim one tier, and wait at least as long as it needs when it is full. */
  function CheckTier(db: Db, key: string, tier: Tier, now: nat, wait: int): (Db, int) {
    var trimmed := TrimTier(db, RateLimits, tier.window, key, now);
    var hits := Members(trimmed, HitsKey(RateLimits, tier.window, key));
    (trimmed, LongerWait(|hits| >= tier.limit, Retry(Oldest(hits), tier.window, now), wait))
  }

  /** First pass: every tier, keeping the longest wait. */
  function CheckTiers(db: Db, key: string, tiers: seq<Tier>, now: nat, wait: int): (Db, int)
    decreases |tiers|
  {
    if tiers == [] then (db, wait)
    else
      var (db', wait') := CheckTier(db, key, tiers[0], now, wait);
      CheckTiers(db', key, tiers[1..], now, wait')
  }

  /** Second pass: record the hit in every tier. */
  function RecordTiers(db: Db, key: string, tiers: seq<Tier>, now: nat): Db
    decreases |tiers|
  {
    if tiers == [] then db
    else RecordTiers(RecordTier(db, RateLimits, tiers[0].window, key, now), key, tiers[1..], now)
  }

  function AdmitOne(db: Db, key: string, tiers: seq<Tier>, now: nat): (Db, Verdict) {
    var (trimmed, wait) := CheckTiers(db, key, tiers, now, 0);
    if wait > 0 then (trimmed, Verdict(false, wait))
    else (RecordTiers(trimmed, key, tiers, now), Verdict(true, 0))
  }

  function LongestWindow(tiers: seq<Tier>): (longest: nat)
    ensures forall i :: 0 <= i < |tiers| ==> tiers[i].window <= longest
    ensures longest == 0 || exists i :: 0 <= i < |tiers| && tiers[i].window == longest
  {
    if tiers == [] then 0
    else
      var rest := LongestWindow(tiers[..|tiers| - 1]);
      assert forall i :: 0 <= i < |tiers| - 1 ==> tiers[i] == tiers[..|tiers| - 1][i];
      if rest < tiers[|tiers| - 1].window then tiers[|tiers| - 1].window else rest
  }

  class SlidingWindow {
    const client: Client
    const tiers: seq<Tier>

    constructor (client: Client, tiers: seq<Tier>)
      ensures this.client == client && this.tiers == tiers
    {
      this.client := client;
      this.tiers := tiers;
    }

    /** The script as it runs: two loops over the tiers, one database. */
    method AdmitOneScript(key: string, now: nat) returns (verdict: Verdict)
      modifies client
      ensures (client.db, verdict) == AdmitOne(old(client.db), key, tiers, now)
    {
      hide CheckTier, RecordTier;
      ghost var start := client.db;
      var wait := 0;
      assert tiers[0..] == tiers;
      for i := 0 to |tiers|
        invariant CheckTiers(start, key, tiers, now, 0) == CheckTiers(client.db, key, tiers[i..], now, wait)
      {
        assert tiers[i..][1..] == tiers[i + 1..];
        wait := CheckOneTier(key, tiers[i], now, wait);
      }
      if wait > 0 {
        return Verdict(false, wait);
      }
      ghost var trimmed := client.db;
      for i := 0 to |tiers|
        invariant RecordTiers(trimmed, key, tiers, now) == RecordTiers(client.db, key, tiers[i..], now)
      {
        assert tiers[i..][1..] == tiers[i + 1..];
        RecordOneTier(key, tiers[i].window, now);
      }
      return Verdict(true, 0);
    }

    /** The body of the first loop. */
    method CheckOneTier(key: string, tier: Tier, now: nat, wait: int) returns (wait': int)
      modifies client
      ensures (client.db, wait') == CheckTier(old(client.db), key, tier, now, wait)
    {
      hide HitsKey, Oldest, ZRemRangeByScore, Members;
      var hits := HitsKey(RateLimits, tier.window, key);
      client.db := ZRemRangeByScore(client.db, hits, now - tier.window);
      wait' := wait;
      if |Members(client.db, hits)| >= tier.limit {
        var oldest := Oldest(Members(client.db, hits));
        var retry := tier.window as int;
        if oldest.Some? {
          retry := oldest.value + tier.window - now;
        }
        if retry > wait {
          wait' := retry;
        }
      }
    }

    /** The body of the second loop. */
    method RecordOneTier(key: string, window: nat, now: nat)
      modifies client
      ensures client.db == RecordTier(old(client.db), RateLimits, window, key, now)
    {
      hide HitsKey, SequenceKey, MemberName;
      var hits, sequence := HitsKey(RateLimits, window, key), SequenceKey(RateLimits, window, key);
      var (db, n) := Incr(client.db, sequence);
      client.db := ZAdd(db, hits, now, MemberName(now, n));
      client.db := PExpireSet(client.db, hits, now, window);
      client.db := PExpireCounter(client.db, sequence, now, window);
    }

    /** `Allow` adds nothing to the script: without tiers there is nothing to ask,
        the guard against a non-positive wait is never taken, and a call that is
        not answered is neither allowed nor refused. */
    method Allow(key: string, now: nat, line: Line) returns (answer: Option<Verdict>)
      modifies client
      ensures answer ==
              if tiers == [] || line.Up? then Some(AdmitOne(old(client.db), key, tiers, now).1) else None
      ensures client.db == if Reaches(line) then AdmitOne(old(client.db), key, tiers, now).0 else old(client.db)
    {
      if |tiers| == 0 {
        return Some(Verdict(true, 0));
      }
      var verdict := Verdict(true, 0);
      if Reaches(line) {
        verdict := AdmitOneScript(key, now);
      }
      if line.Down? {
        return None;
      }
      if verdict.allowed {
        return Some(Verdict(true, 0));
      }
      if verdict.wait <= 0 {
        return Some(Verdict(false, LongestWindow(tiers)));
      }
      return Some(Verdict(false, verdict.wait));
    }
  }

  // ---------------------------------------------------------- the plain log

  /** What a log of admitted hits alone would answer. */
  function PlainTierWait(log: seq<nat>, all: seq<Tier>, tier: Tier, now: nat, wait: int): int {
    var held := Weight(all, tier.window) * CountAfter(log, now - tier.window);
    LongerWait(held >= tier.limit, Retry(OldestAfter(log, now - tier.window), tier.window, now), wait)
  }

  function PlainWait(log: seq<nat>, all: seq<Tier>, tiers: seq<Tier>, now: nat, wait: int): int
    decreases |tiers|
  {
    if tiers == [] then wait
    else PlainWait(log, all, tiers[1..], now, PlainTierWait(log, all, tiers[0], now, wait))
  }

  function PlainVerdict(log: seq<nat>, tiers: seq<Tier>, now: nat): Verdict {
    var wait := PlainWait(log, tiers, tiers, now, 0);
    if wait > 0 then Verdict(false, wait) else Verdict(true, 0)
  }

  // --------------------------------------------------- one call, refinement

  predicate Live(db: Db, window: nat, key: string, now: nat) {
    AllLive(Look(db, RateLimits, window, key).Members(), window, now)
  }

  lemma TrimKeepsKey(db: Db, tiers: seq<Tier>, key: string, window: nat, now: nat, log: seq<nat>)
    requires KeyTracks(db, RateLimits, tiers, key, log, now)
    ensures KeyTracks(TrimTier(db, RateLimits, window, key, now), RateLimits, tiers, key, log, now)
  {
    forall i | 0 <= i < |tiers|
      ensures var w := tiers[i].window;
              Tracks(Look(TrimTier(db, RateLimits, window, key, now), RateLimits, w, key),
                     log, w, Weight(tiers, w), 0, now)
    {
      var w := tiers[i].window;
      hide Look, Tracks, Trimmed, TrimTier;
      TrimTouchesOneShelf(db, RateLimits, window, key, now, RateLimits, w, key);
      TrimKeepsTrack(Look(db, RateLimits, w, key), log, w, Weight(tiers, w), 0, now);
    }
  }

  lemma TrimMakesLive(db: Db, key: string, window: nat, now: nat, w: nat)
    requires w == window || Live(db, w, key, now)
    ensures Live(TrimTier(db, RateLimits, window, key, now), w, key, now)
  {
    TrimTouchesOneShelf(db, RateLimits, window, key, now, RateLimits, w, key);
  }

  lemma TierWaitAgrees(trimmed: Db, key: string, tiers: seq<Tier>, tier: Tier, now: nat, wait: int, log: seq<nat>)
    requires tier in tiers && KeyTracks(trimmed, RateLimits, tiers, key, log, now)
    requires Live(trimmed, tier.window, key, now)
    ensures var hits := Members(trimmed, HitsKey(RateLimits, tier.window, key));
            LongerWait(|hits| >= tier.limit, Retry(Oldest(hits), tier.window, now), wait)
            == PlainTierWait(log, tiers, tier, now, wait)
  {
    hide Oldest, OldestAfter, CountAfter, Weight, Tracks, Look, Members, HitsKey, DistinctWindows;
    var shelf := Look(trimmed, RateLimits, tier.window, key);
    LookMembers(trimmed, RateLimits, tier.window, key);
    WeightOfTier(tiers, tier);
    OldestAgrees(shelf, log, tier.window, Weight(tiers, tier.window), now);
  }

  lemma CheckTierAgrees(db: Db, key: string, tiers: seq<Tier>, k: nat, now: nat, wait: int, log: seq<nat>)
    requires k < |tiers| && KeyTracks(db, RateLimits, tiers, key, log, now)
    requires forall i :: 0 <= i < k ==> Live(db, tiers[i].window, key, now)
    ensures var (db', wait') := CheckTier(db, key, tiers[k], now, wait);
            && wait' == PlainTierWait(log, tiers, tiers[k], now, wait)
            && KeyTracks(db', RateLimits, tiers, key, log, now)
            && forall i :: 0 <= i < k + 1 ==> Live(db', tiers[i].window, key, now)
  {
    hide TrimTier, KeyTracks, Live, PlainTierWait, HitsKey, Members, Oldest;
    var tier := tiers[k];
    var trimmed := TrimTier(db, RateLimits, tier.window, key, now);
    TrimKeepsKey(db, tiers, key, tier.window, now, log);
    forall i | 0 <= i < k + 1 ensures Live(trimmed, tiers[i].window, key, now) {
      TrimMakesLive(db, key, tier.window, now, tiers[i].window);
    }
    TierWaitAgrees(trimmed, key, tiers, tier, now, wait, log);
  }

  /** The first pass waits exactly as long as the log says. */
  lemma {:induction false} CheckAgrees(db: Db, key: string, tiers: seq<Tier>, k: nat, now: nat,
                                       wait: int, log: seq<nat>)
    requires k <= |tiers| && KeyTracks(db, RateLimits, tiers, key, log, now)
    requires forall i :: 0 <= i < k ==> Live(db, tiers[i].window, key, now)
    ensures var (db', wait') := CheckTiers(db, key, tiers[k..], now, wait);
            && wait' == PlainWait(log, tiers, tiers[k..], now, wait)
            && KeyTracks(db', RateLimits, tiers, key, log, now)
            && forall i :: 0 <= i < |tiers| ==> Live(db', tiers[i].window, key, now)
    decreases |tiers| - k
  {
    hide CheckTier, PlainTierWait, KeyTracks, Live;
    if k < |tiers| {
      assert tiers[k..][0] == tiers[k] && tiers[k..][1..] == tiers[k + 1..];
      CheckTierAgrees(db, key, tiers, k, now, wait, log);
      var (db', wait') := CheckTier(db, key, tiers[k], now, wait);
      CheckAgrees(db', key, tiers, k + 1, now, wait', log);
    }
  }

  lemma RecordTierAdds(db: Db, key: string, w: nat, now: nat,
                       window: nat, log: seq<nat>, weight: nat, extra: nat)
    requires w >= 1
    requires Tracks(Look(db, RateLimits, window, key), log, window, weight, extra, now) && Live(db, window, key, now)
    ensures var db' := RecordTier(db, RateLimits, w, key, now);
            && Tracks(Look(db', RateLimits, window, key), log, window, weight,
                      extra + (if w == window then 1 else 0), now)
            && Live(db', window, key, now)
  {
    hide Look, Tracks, RecordTier, Recorded, AllLive;
    RecordTouchesOneShelf(db, RateLimits, w, key, now, RateLimits, window, key);
    if w == window {
      RecordKeepsTrack(Look(db, RateLimits, window, key), log, window, weight, extra, now);
    }
  }

  /** The second pass adds one member per tier sharing the window. */
  lemma {:induction false} RecordAddsWeight(db: Db, key: string, tiers: seq<Tier>, now: nat,
                                            window: nat, log: seq<nat>, weight: nat, extra: nat)
    requires Windowed(tiers)
    requires Tracks(Look(db, RateLimits, window, key), log, window, weight, extra, now) && Live(db, window, key, now)
    ensures var db' := RecordTiers(db, key, tiers, now);
            && Tracks(Look(db', RateLimits, window, key), log, window, weight, extra + Weight(tiers, window), now)
            && Live(db', window, key, now)
    decreases |tiers|
  {
    hide Look, Tracks, RecordTier, Live;
    if tiers != [] {
      var w := tiers[0].window;
      RecordTierAdds(db, key, w, now, window, log, weight, extra);
      RecordAddsWeight(RecordTier(db, RateLimits, w, key, now), key, tiers[1..], now, window, log, weight,
                       extra + if w == window then 1 else 0);
    }
  }

  /** One call answers what the log answers, and the state stays in step with
      the log whether the hit was admitted or refused. */
  lemma AdmitRefinesLog(db: Db, key: string, tiers: seq<Tier>, now: nat, log: seq<nat>)
    requires Windowed(tiers) && KeyTracks(db, RateLimits, tiers, key, log, now)
    ensures var (db', verdict) := AdmitOne(db, key, tiers, now);
            && verdict == PlainVerdict(log, tiers, now)
            && KeyTracks(db', RateLimits, tiers, key, if verdict.allowed then log + [now] else log, now)
  {
    assert tiers[0..] == tiers;
    hide CheckTiers, PlainWait, RecordTiers, KeyTracks, Live;
    CheckAgrees(db, key, tiers, 0, now, 0, log);
    RecordLogs(CheckTiers(db, key, tiers, now, 0).0, key, tiers, now, log);
  }

  lemma {:induction false} RecordLogs(db: Db, key: string, tiers: seq<Tier>, now: nat, log: seq<nat>)
    requires Windowed(tiers) && KeyTracks(db, RateLimits, tiers, key, log, now)
    requires forall i :: 0 <= i < |tiers| ==> Live(db, tiers[i].window, key, now)
    ensures KeyTracks(RecordTiers(db, key, tiers, now), RateLimits, tiers, key, log + [now], now)
  {
    hide RecordTiers, Tracks, Look, Live, Weight;
    var recorded := RecordTiers(db, key, tiers, now);
    forall i | 0 <= i < |tiers|
      ensures var w := tiers[i].window;
              Tracks(Look(recorded, RateLimits, w, key), log + [now], w, Weight(tiers, w), 0, now)
    {
      var w := tiers[i].window;
      RecordAddsWeight(db, key, tiers, now, w, log, Weight(tiers, w), 0);
      HitIsLogged(Look(recorded, RateLimits, w, key), log, w, Weight(tiers, w), now);
    }
  }

  /** A call on one key leaves every other shelf as it was. */
  lemma {:induction false} CheckTouchesOneKey(db: Db, key: string, tiers: seq<Tier>, now: nat, wait: int,
                                              ns: Namespace, w: nat, other: string)
    requires (ns, other) != (RateLimits, key)
    ensures Look(CheckTiers(db, key, tiers, now, wait).0, ns, w, other) == Look(db, ns, w, other)
    decreases |tiers|
  {
    hide Look, TrimTier, Oldest, LongerWait;
    if tiers != [] {
      TrimTouchesOneShelf(db, RateLimits, tiers[0].window, key, now, ns, w, other);
      var (db', wait') := CheckTier(db, key, tiers[0], now, wait);
      CheckTouchesOneKey(db', key, tiers[1..], now, wait', ns, w, other);
    }
  }

  lemma {:induction false} RecordTouchesOneKey(db: Db, key: string, tiers: seq<Tier>, now: nat,
                                               ns: Namespace, w: nat, other: string)
    requires (ns, other) != (RateLimits, key)
    ensures Look(RecordTiers(db, key, tiers, now), ns, w, other) == Look(db, ns, w, other)
    decreases |tiers|
  {
    hide Look, RecordTier;
    if tiers != [] {
      RecordTouchesOneShelf(db, RateLimits, tiers[0].window, key, now, ns, w, other);
      RecordTouchesOneKey(RecordTier(db, RateLimits, tiers[0].window, key, now), key, tiers[1..], now, ns, w, other);
    }
  }

  lemma AdmitTouchesOneKey(db: Db, key: string, tiers: seq<Tier>, now: nat, ns: Namespace, w: nat, other: string)
    requires (ns, other) != (RateLimits, key)
    ensures Look(AdmitOne(db, key, tiers, now).0, ns, w, other) == Look(db, ns, w, other)
  {
    hide Look, CheckTiers, RecordTiers;
    CheckTouchesOneKey(db, key, tiers, now, 0, ns, w, other);
    RecordTouchesOneKey(CheckTiers(db, key, tiers, now, 0).0, key, tiers, now, ns, w, other);
  }
}
