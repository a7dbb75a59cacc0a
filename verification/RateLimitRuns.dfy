/** Whole runs of the limiter: any number of callers, keys expiring whenever
    they may, on one clock that never goes back. */
module RateLimitRuns {
  import opened Results
  import opened Redis
  import opened HitStore
  import opened RateLimit

  datatype Event =
    | Call(key: string, at: nat)
    | Expiry(name: string, at: nat)

  predicate Chronological(events: seq<Event>) {
    forall i, j :: 0 <= i < j < |events| ==> events[i].at <= events[j].at
  }

  // ------------------------------------------------------------- two runs

  /** The database after a run, and what each call was answered. */
  datatype World = World(db: Db, answers: seq<Option<Verdict>>)

  function Run(tiers: seq<Tier>, events: seq<Event>): World {
    if events == [] then World(EMPTY, [])
    else
      var before := Run(tiers, events[..|events| - 1]);
      match events[|events| - 1]
      case Call(key, at) =>
        var (db, verdict) := AdmitOne(before.db, key, tiers, at);
        World(db, before.answers + [Some(verdict)])
      case Expiry(name, at) => World(Evict(before.db, name, at), before.answers + [None])
  }

  /** The same run kept as nothing but the admitted times of each caller key. */
  datatype Plain = Plain(logs: map<string, seq<nat>>, answers: seq<Option<Verdict>>)

  function LogOf(logs: map<string, seq<nat>>, key: string): seq<nat> {
    if key in logs then logs[key] else []
  }

  function PlainStep(tiers: seq<Tier>, before: Plain, e: Event): Plain {
    match e
    case Call(key, at) =>
      var log := LogOf(before.logs, key);
      var verdict := PlainVerdict(log, tiers, at);
      Plain(if verdict.allowed then before.logs[key := log + [at]] else before.logs, before.answers + [Some(verdict)])
    case Expiry(_, _) => before.(answers := before.answers + [None])
  }

  function PlainRun(tiers: seq<Tier>, events: seq<Event>): (plain: Plain)
    ensures |plain.answers| == |events|
  {
    if events == [] then Plain(map[], [])
    else PlainStep(tiers, PlainRun(tiers, events[..|events| - 1]), events[|events| - 1])
  }

  // ------------------------------------------------------------ refinement

  ghost predicate InStep(db: Db, tiers: seq<Tier>, logs: map<string, seq<nat>>, now: nat) {
    forall key :: KeyTracks(db, RateLimits, tiers, key, LogOf(logs, key), now)
  }

  lemma CallKeepsInStep(db: Db, tiers: seq<Tier>, before: Plain, key: string, at: nat)
    requires Windowed(tiers) && InStep(db, tiers, before.logs, at)
    ensures var (db', verdict) := AdmitOne(db, key, tiers, at);
            var after := PlainStep(tiers, before, Call(key, at));
            InStep(db', tiers, after.logs, at) && after.answers == before.answers + [Some(verdict)]
  {
    hide KeyTracks, AdmitOne, PlainVerdict;
    var (db', verdict) := AdmitOne(db, key, tiers, at);
    AdmitRefinesLog(db, key, tiers, at, LogOf(before.logs, key));
    var after := PlainStep(tiers, before, Call(key, at));
    forall other ensures KeyTracks(db', RateLimits, tiers, other, LogOf(after.logs, other), at) {
      if other != key {
        OtherKeyTracks(db, tiers, key, at, other, LogOf(before.logs, other));
      }
    }
  }

  lemma OtherKeyTracks(db: Db, tiers: seq<Tier>, key: string, at: nat, other: string, log: seq<nat>)
    requires other != key && KeyTracks(db, RateLimits, tiers, other, log, at)
    ensures KeyTracks(AdmitOne(db, key, tiers, at).0, RateLimits, tiers, other, log, at)
  {
    forall i | 0 <= i < |tiers|
      ensures Look(AdmitOne(db, key, tiers, at).0, RateLimits, tiers[i].window, other)
              == Look(db, RateLimits, tiers[i].window, other)
    {
      AdmitTouchesOneKey(db, key, tiers, at, RateLimits, tiers[i].window, other);
    }
    hide Look, AdmitOne, Tracks;
  }

  lemma InStepLater(db: Db, tiers: seq<Tier>, logs: map<string, seq<nat>>, now: nat, later: nat)
    requires InStep(db, tiers, logs, now) && now <= later
    ensures InStep(db, tiers, logs, later)
  {
    hide KeyTracks;
    forall key ensures KeyTracks(db, RateLimits, tiers, key, LogOf(logs, key), later) {
      KeyTracksLater(db, RateLimits, tiers, key, LogOf(logs, key), now, later);
    }
  }

  lemma ExpiryKeepsInStep(db: Db, tiers: seq<Tier>, logs: map<string, seq<nat>>, name: string, now: nat)
    requires InStep(db, tiers, logs, now)
    ensures InStep(Evict(db, name, now), tiers, logs, now)
  {
    hide KeyTracks, Evict;
    forall key ensures KeyTracks(Evict(db, name, now), RateLimits, tiers, key, LogOf(logs, key), now) {
      KeyTracksEvict(db, name, RateLimits, tiers, key, LogOf(logs, key), now);
    }
  }

  lemma EmptyInStep(tiers: seq<Tier>, now: nat)
    ensures InStep(EMPTY, tiers, map[], now)
  {
    forall key ensures KeyTracks(EMPTY, RateLimits, tiers, key, [], now) {
      forall i | 0 <= i < |tiers|
        ensures Tracks(Look(EMPTY, RateLimits, tiers[i].window, key), [], tiers[i].window,
                       Weight(tiers, tiers[i].window), 0, now)
      {
        BareTracks(tiers[i].window, Weight(tiers, tiers[i].window), now);
      }
    }
  }

  /** However calls and expiries interleave, every answer — admitted or refused,
      and for how long — is the one the plain log gives. */
  lemma {:induction false} RunsRefineTheLog(tiers: seq<Tier>, events: seq<Event>, now: nat)
    requires Windowed(tiers) && Chronological(events)
    requires forall i :: 0 <= i < |events| ==> events[i].at <= now
    ensures Run(tiers, events).answers == PlainRun(tiers, events).answers
    ensures InStep(Run(tiers, events).db, tiers, PlainRun(tiers, events).logs, now)
  {
    if events == [] {
      EmptyInStep(tiers, now);
    } else {
      var front, last := events[..|events| - 1], events[|events| - 1];
      hide InStep, AdmitOne, Evict, PlainVerdict;
      RunsRefineTheLog(tiers, front, last.at);
      var before := Run(tiers, front);
      match last
      case Call(key, at) =>
        CallKeepsInStep(before.db, tiers, PlainRun(tiers, front), key, at);
      case Expiry(name, at) =>
        ExpiryKeepsInStep(before.db, tiers, PlainRun(tiers, front).logs, name, at);
      InStepLater(Run(tiers, events).db, tiers, PlainRun(tiers, events).logs, last.at, now);
    }
  }
}
