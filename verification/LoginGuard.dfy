/** The guard in front of a login: three failure counters over one Redis, and a
    decision that fails closed. */
module LoginGuard {
  import opened Redis
  import opened HitStore
  import opened RateLimit
  import opened RateLimitRuns
  import opened RateLimitLaws
  import opened Failures
  import opened FailureRuns
  import opened RateLimitRetry

  /** What a caller is told to wait, in milliseconds, when Redis does not answer. */
  const RETRY_AFTER_UNAVAILABLE := 30000

  datatype Limits = Limits(account: seq<Tier>, address: seq<Tier>, network: seq<Tier>)

  /** Who is trying: the digest of the address typed, and the two aggregates of
      the network address it came from. */
  datatype Attempt = Attempt(accountDigest: string, address: string, network: string)

  function AccountKey(digest: string): string { "account:" + digest }
  function AddressKey(address: string): string { "ip:" + address }
  function NetworkKey(network: string): string { "net:" + network }

  function KeysFor(attempt: Attempt): (keys: seq<string>)
    ensures |keys| == 3
  {
    [AccountKey(attempt.accountDigest), AddressKey(attempt.address), NetworkKey(attempt.network)]
  }

  /** Whatever an address or a digest spells, a bucket is its own. */
  lemma BucketKeysNeverCollide(a: Attempt, b: Attempt, i: nat, j: nat)
    requires i < 3 && j < 3
    ensures KeysFor(a)[i] == KeysFor(b)[j] ==> i == j
    ensures KeysFor(a)[i] == KeysFor(b)[i] <==>
            (match i case 0 => a.accountDigest == b.accountDigest
                     case 1 => a.address == b.address
                     case _ => a.network == b.network)
  {
    var k, l := KeysFor(a)[i], KeysFor(b)[j];
    assert k[0] == (match i case 0 => 'a' case 1 => 'i' case _ => 'n');
    assert l[0] == (match j case 0 => 'a' case 1 => 'i' case _ => 'n');
    assert AccountKey(a.accountDigest)[8..] == a.accountDigest && AccountKey(b.accountDigest)[8..] == b.accountDigest;
    assert AddressKey(a.address)[3..] == a.address && AddressKey(b.address)[3..] == b.address;
    assert NetworkKey(a.network)[4..] == a.network && NetworkKey(b.network)[4..] == b.network;
  }

  predicate IsAccountKey(key: string) {
    "account:" <= key
  }

  /** Each family of keys is counted in the tiers of its own counter. */
  function TiersOf(limits: Limits): Tiering {
    (key: string) =>
      if "account:" <= key then limits.account
      else if "ip:" <= key then limits.address
      else if "net:" <= key then limits.network
      else []
  }

  // ---------------------------------------------------------- the decision

  datatype Outcome = Unavailable | Answered(verdict: Verdict)

  datatype Decision = Pass | TooManyAttempts(retryAfter: int)

  /** The loop over the buckets: stop at the first that does not answer, and
      keep the longest wait of those that refuse. */
  function Decide(outcomes: seq<Outcome>, longest: int): Decision
    decreases |outcomes|
  {
    if outcomes == [] then
      if longest > 0 then TooManyAttempts(longest) else Pass
    else
      match outcomes[0]
      case Unavailable => TooManyAttempts(RETRY_AFTER_UNAVAILABLE)
      case Answered(v) =>
        Decide(outcomes[1..], if !v.allowed && v.wait > longest then v.wait else longest)
  }

  predicate Refuses(outcome: Outcome) {
    outcome.Answered? && !outcome.verdict.allowed
  }

  /** Every refusal names a wait to come. */
  predicate WaitsArePositive(outcomes: seq<Outcome>) {
    forall i :: 0 <= i < |outcomes| && Refuses(outcomes[i]) ==> outcomes[i].verdict.wait > 0
  }

  /** The guard passes exactly when every bucket answered and none refused, and
      the wait it names is the longest of those that did. */
  lemma {:induction false} PassesOnlyWithRoomEverywhere(outcomes: seq<Outcome>, longest: nat)
    requires WaitsArePositive(outcomes)
    ensures Decide(outcomes, longest).Pass? <==>
            longest == 0 && forall i :: 0 <= i < |outcomes| ==> outcomes[i].Answered? && outcomes[i].verdict.allowed
    ensures (forall i :: 0 <= i < |outcomes| ==> outcomes[i].Answered?) && !Decide(outcomes, longest).Pass? ==>
              var wait := Decide(outcomes, longest).retryAfter;
              && wait >= longest
              && (forall i :: 0 <= i < |outcomes| && Refuses(outcomes[i]) ==> outcomes[i].verdict.wait <= wait)
              && (wait == longest ||
                  exists i :: 0 <= i < |outcomes| && Refuses(outcomes[i]) && outcomes[i].verdict.wait == wait)
    decreases |outcomes|
  {
    if outcomes != [] && outcomes[0].Answered? {
      var rest, v := outcomes[1..], outcomes[0].verdict;
      var longest' := if !v.allowed && v.wait > longest then v.wait else longest;
      assert forall i :: 0 <= i < |rest| ==> rest[i] == outcomes[i + 1];
      PassesOnlyWithRoomEverywhere(rest, longest');
      assert forall i :: 1 <= i < |outcomes| ==> outcomes[i] == rest[i - 1];
    }
  }

  /** One bucket that does not answer refuses the attempt for thirty seconds,
      whatever the others say. */
  lemma {:induction false} UnansweredFailsClosed(outcomes: seq<Outcome>, longest: int, i: nat)
    requires i < |outcomes| && outcomes[i].Unavailable?
    ensures Decide(outcomes, longest) == TooManyAttempts(30_000)
    decreases |outcomes|
  {
    if outcomes[0].Answered? {
      var v := outcomes[0].verdict;
      UnansweredFailsClosed(outcomes[1..], if !v.allowed && v.wait > longest then v.wait else longest, i - 1);
    }
  }

  /** One call to Redis: the database it finds, its instant, and whether it is
      answered. Between the calls of one attempt anything may happen. */
  datatype Moment = Moment(db: Db, at: nat, line: Line)

  class Guard {
    const account: FailureCounter
    const address: FailureCounter
    const network: FailureCounter

    constructor (account: FailureCounter, address: FailureCounter, network: FailureCounter)
      ensures this.account == account && this.address == address && this.network == network
    {
      this.account := account;
      this.address := address;
      this.network := network;
    }

    function Counter(i: nat): FailureCounter
      requires i < 3
    {
      if i == 0 then account else if i == 1 then address else network
    }

    /** What the three buckets answer, each at its own call. */
    function Outcomes(attempt: Attempt, calls: seq<Moment>): (outcomes: seq<Outcome>)
      requires |calls| == 3
      ensures |outcomes| == 3
    {
      seq(3, i requires 0 <= i < 3 =>
        if Counter(i).tiers == [] || calls[i].line.Up?
        then Answered(CheckKey(calls[i].db, KeysFor(attempt)[i], Counter(i).tiers, calls[i].at))
        else Unavailable)
    }

    /** Three calls, one bucket after another; the first that is not answered
        refuses the attempt. */
    method Check(attempt: Attempt, calls: seq<Moment>) returns (decision: Decision)
      requires |calls| == 3
      modifies account.client, address.client, network.client
      ensures decision == Decide(Outcomes(attempt, calls), 0)
    {
      hide CheckKey;
      ghost var outcomes := Outcomes(attempt, calls);
      var longest := 0;
      assert outcomes[0..] == outcomes;
      for i := 0 to 3
        invariant Decide(outcomes, 0) == Decide(outcomes[i..], longest)
      {
        assert outcomes[i..][0] == outcomes[i] && outcomes[i..][1..] == outcomes[i + 1..];
        var counter := Counter(i);
        counter.client.Elsewhere(calls[i].db);
        var answer := counter.Check(KeysFor(attempt)[i], calls[i].at, calls[i].line);
        if answer.None? {
          return TooManyAttempts(RETRY_AFTER_UNAVAILABLE);
        }
        if !answer.value.allowed && answer.value.wait > longest {
          longest := answer.value.wait;
        }
      }
      return if longest > 0 then TooManyAttempts(longest) else Pass;
    }

    /** A failed attempt is counted in all three buckets, each at its own call; a
        counter that cannot be written is passed over. */
    method RecordFailure(attempt: Attempt, calls: seq<Moment>) returns (left: seq<Db>)
      requires |calls| == 3
      modifies account.client, address.client, network.client
      ensures |left| == 3
      ensures forall i :: 0 <= i < 3 ==>
                left[i] == if Reaches(calls[i].line)
                           then Failures.RecordFailure(calls[i].db, KeysFor(attempt)[i], Counter(i).tiers, calls[i].at)
                           else calls[i].db
      ensures network.client.db == left[2]
    {
      hide Failures.RecordFailure;
      left := [];
      for i := 0 to 3
        invariant |left| == i
        invariant i > 0 ==> Counter(i - 1).client.db == left[i - 1]
        invariant forall k :: 0 <= k < i ==>
                    left[k] == if Reaches(calls[k].line)
                               then Failures.RecordFailure(calls[k].db, KeysFor(attempt)[k],
                                                           Counter(k).tiers, calls[k].at)
                               else calls[k].db
      {
        var counter := Counter(i);
        counter.client.Elsewhere(calls[i].db);
        var _ := counter.Record(KeysFor(attempt)[i], calls[i].at, calls[i].line);
        left := left + [counter.client.db];
      }
    }

    /** A success forgets the account's failures, and only the account's; not
        being able to is passed over. */
    method Succeeded(attempt: Attempt, line: Line)
      modifies account.client
      ensures account.client.db ==
              if Reaches(line) then Forget(old(account.client.db), AccountKey(attempt.accountDigest), account.tiers)
              else old(account.client.db)
    {
      var _ := account.Reset(AccountKey(attempt.accountDigest), line);
    }
  }

  /** `FailureCounter.Check` never refuses with a wait that is not positive, so
      the guard's decision is about room and nothing else. */
  lemma ChecksWaitPositively(db: Db, key: string, tiers: seq<Tier>, now: nat)
    ensures var v := CheckKey(db, key, tiers, now); !v.allowed ==> v.wait > 0
  {
  }

  // ------------------------------------------------------ refusals in a run

  /** A refused key stays full until its wait is over, whatever is recorded in
      the meantime, unless it is reset. */
  lemma {:induction false} FullTierStandsStill(tiersOf: Tiering, steps: seq<Step>, more: seq<Step>, key: string,
                                               tier: Tier, now: nat, t: nat)
    requires Until(more, t) && forall i :: 0 <= i < |more| ==> more[i] != Reset(key, more[i].at)
    requires var log := LogOf(PlainHappened(tiersOf, steps).logs, key);
             Full(log, tiersOf(key), tier, now) && now <= t < now + RetryOf(log, tier, now)
    ensures Full(LogOf(PlainHappened(tiersOf, steps + more).logs, key), tiersOf(key), tier, t)
  {
    hide PlainVerdict, PlainHappened, Full, RetryOf;
    if more == [] {
      assert steps + more == steps;
      StaysFull(LogOf(PlainHappened(tiersOf, steps).logs, key), tiersOf(key), tier, now, t);
    } else {
      var n := |more| - 1;
      FullTierStandsStill(tiersOf, steps, more[..n], key, tier, now, t);
      var before := PlainHappened(tiersOf, steps + more[..n]);
      Continue(tiersOf, steps, more);
      MoreIsFuller(LogOf(before.logs, key), more[n].at, tiersOf(key), tier, t);
    }
  }

  lemma {:induction false} Continue(tiersOf: Tiering, steps: seq<Step>, more: seq<Step>)
    requires more != []
    ensures var n := |more| - 1;
            PlainHappened(tiersOf, steps + more)
            == PlainApply(tiersOf, PlainHappened(tiersOf, steps + more[..n]), more[n])
  {
    hide PlainApply, PlainHappened;
    var n := |more| - 1;
    assert steps + more == (steps + more[..n]) + [more[n]];
    LastStep(tiersOf, steps + more[..n], more[n]);
  }

  lemma MoreIsFuller(log: seq<nat>, at: nat, tiers: seq<Tier>, tier: Tier, t: nat)
    requires Full(log, tiers, tier, t)
    ensures Full(log + [at], tiers, tier, t)
  {
    hide CountAfter, Weight;
    CountOfAppended(log, at, t - tier.window);
    FactorIsMonotone(Weight(tiers, tier.window), CountAfter(log, t - tier.window),
                     CountAfter(log + [at], t - tier.window));
  }

  /** A wait a counter names is one before which every later check of the key is
      refused, unless the key is reset. */
  lemma {:induction false} RefusalStands(tiersOf: Tiering, steps: seq<Step>, key: string, now: nat,
                                         more: seq<Step>, t: nat)
    requires AllWindowed(tiersOf) && InOrder(steps + more) && Until(steps, now) && Until(steps + more, t) && now <= t
    requires forall i :: 0 <= i < |more| ==> more[i] != Reset(key, more[i].at)
    requires var v := CheckKey(Happened(tiersOf, steps).db, key, tiersOf(key), now);
             !v.allowed && t < now + v.wait
    ensures !CheckKey(Happened(tiersOf, steps + more).db, key, tiersOf(key), t).allowed
  {
    hide Happened, PlainHappened, PlainVerdict, CheckKey, Full, RetryOf, KeyTracks, PlainWait;
    Prefix(steps, more);
    ChecksReadTheFailures(tiersOf, steps, now);
    ChecksReadTheFailures(tiersOf, steps + more, t);
    var log, log' := LogOf(PlainHappened(tiersOf, steps).logs, key),
                     LogOf(PlainHappened(tiersOf, steps + more).logs, key);
    var tiers := tiersOf(key);
    CheckReadsTheLog(Happened(tiersOf, steps).db, key, tiers, now, log);
    CheckReadsTheLog(Happened(tiersOf, steps + more).db, key, tiers, t, log');
    var i := DecidingTier(log, tiers, now);
    FullTierStandsStill(tiersOf, steps, more, key, tiers[i], now, t);
    VerdictMeansRoom(log', tiers, t);
  }

  lemma DecidingTier(log: seq<nat>, tiers: seq<Tier>, now: nat) returns (i: nat)
    requires Windowed(tiers) && !PlainVerdict(log, tiers, now).allowed
    ensures i < |tiers| && Full(log, tiers, tiers[i], now)
    ensures PlainVerdict(log, tiers, now).wait == RetryOf(log, tiers[i], now)
  {
    hide Full, RetryOf, PlainWait;
    WaitIsTheLongest(log, tiers, tiers, now, 0);
    i :| 0 <= i < |tiers| && Full(log, tiers, tiers[i], now)
         && PlainWait(log, tiers, tiers, now, 0) == RetryOf(log, tiers[i], now);
  }

  lemma Prefix(steps: seq<Step>, more: seq<Step>)
    requires InOrder(steps + more)
    ensures InOrder(steps) && Until(more, if steps + more == [] then 0 else (steps + more)[|steps + more| - 1].at)
    ensures forall t :: Until(steps + more, t) ==> Until(more, t)
  {
    var all := steps + more;
    assert forall i :: 0 <= i < |steps| ==> all[i] == steps[i];
    assert forall i :: 0 <= i < |more| ==> all[|steps| + i] == more[i];
  }

  // ------------------------------------------------------ the shipped limits

  const MINUTE: nat := 60_000
  const HOUR: nat := 3_600_000

  const DEFAULT_LIMITS := Limits(
    [Tier(5, 15 * MINUTE), Tier(20, HOUR)],
    [Tier(30, 10 * MINUTE), Tier(200, 24 * HOUR)],
    [Tier(300, 10 * MINUTE), Tier(2000, 24 * HOUR)])

  function Stored(limits: Limits, steps: seq<Step>, key: string, window: nat, now: nat): nat {
    Later(Look(Happened(TiersOf(limits), steps).db, FailureCounts, window, key).Members(), now - window)
  }

  lemma DefaultsAreDistinct(key: string)
    ensures Windowed(TiersOf(DEFAULT_LIMITS)(key)) && DistinctWindows(TiersOf(DEFAULT_LIMITS)(key))
    ensures forall i :: 0 <= i < |TiersOf(DEFAULT_LIMITS)(key)| ==> TiersOf(DEFAULT_LIMITS)(key)[i].limit >= 1
  {
  }

  lemma ShippedTiers(attempt: Attempt, i: nat)
    requires i < 3
    ensures TiersOf(DEFAULT_LIMITS)(KeysFor(attempt)[i]) ==
            [[Tier(5, 900_000), Tier(20, 3_600_000)],
             [Tier(30, 600_000), Tier(200, 86_400_000)],
             [Tier(300, 600_000), Tier(2000, 86_400_000)]][i]
  {
    var key := KeysFor(attempt)[i];
    assert key[0] == (match i case 0 => 'a' case 1 => 'i' case _ => 'n');
  }

  /** With the shipped limits and at most C attempts in flight per bucket, no
      bucket ever stores more than limit + C - 1 live failures in either window:
      an account at most C + 4 in fifteen minutes and C + 19 in an hour, an address
      C + 29 in ten minutes and C + 199 in a day, a network ten times as many. */
  lemma {:induction false} ShippedLimitsHold(steps: seq<Step>, attempt: Attempt, i: nat, tier: Tier,
                                             most: nat, now: nat)
    requires InOrder(steps) && Until(steps, now) && i < 3
    requires tier in TiersOf(DEFAULT_LIMITS)(KeysFor(attempt)[i])
    requires var answers := Happened(TiersOf(DEFAULT_LIMITS), steps).answers;
             |answers| == |steps| && AtMostInFlight(steps, answers, KeysFor(attempt)[i], most)
    ensures Stored(DEFAULT_LIMITS, steps, KeysFor(attempt)[i], tier.window, now) <= tier.limit + most - 1
    ensures TiersOf(DEFAULT_LIMITS)(KeysFor(attempt)[i]) ==
            [[Tier(5, 900_000), Tier(20, 3_600_000)],
             [Tier(30, 600_000), Tier(200, 86_400_000)],
             [Tier(300, 600_000), Tier(2000, 86_400_000)]][i]
  {
    hide Happened, AtMostInFlight, InOrder, Until, Windowed, DistinctWindows;
    ShippedTiers(attempt, i);
    var tiersOf := TiersOf(DEFAULT_LIMITS);
    forall key ensures Windowed(tiersOf(key)) {
      DefaultsAreDistinct(key);
    }
    DefaultsAreDistinct(KeysFor(attempt)[i]);
    StoredFailuresAreBounded(tiersOf, steps, KeysFor(attempt)[i], tier, most, now);
  }
}
