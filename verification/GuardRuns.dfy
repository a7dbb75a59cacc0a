/** The login guard in whole runs: its three reads come one after another, and
    other attempts, resets and expiries happen between them. */
module GuardRuns {
  import opened Results
  import opened HitStore
  import opened RateLimit
  import opened RateLimitRuns
  import opened RateLimitLaws
  import opened Failures
  import opened FailureRuns
  import opened LoginGuard

  /** One of the three reads: what happened since the one before it, when it was
      made, and whether it was answered. */
  datatype Probe = Probe(between: seq<Step>, at: nat, up: bool)

  function TiersFor(limits: Limits, attempt: Attempt, i: nat): seq<Tier>
    requires i < 3
  {
    TiersOf(limits)(KeysFor(attempt)[i])
  }

  /** The run up to the i-th read; an answered read is a check step of the run. */
  function History(start: seq<Step>, attempt: Attempt, probes: seq<Probe>, i: nat): seq<Step>
    requires |probes| == 3 && i <= 3
  {
    if i == 0 then start + probes[0].between
    else
      var asked := History(start, attempt, probes, i - 1)
                   + if probes[i - 1].up then [Check(KeysFor(attempt)[i - 1], probes[i - 1].at)] else [];
      if i == 3 then asked else asked + probes[i].between
  }

  /** Every read is made at an instant no earlier than what came before it. */
  predicate InTime(start: seq<Step>, attempt: Attempt, probes: seq<Probe>)
    requires |probes| == 3
  {
    forall i :: 0 <= i < 3 ==>
      InOrder(History(start, attempt, probes, i)) && Until(History(start, attempt, probes, i), probes[i].at)
  }

  function Answer(limits: Limits, start: seq<Step>, attempt: Attempt, probes: seq<Probe>, i: nat): Verdict
    requires |probes| == 3 && i < 3
  {
    CheckKey(Happened(TiersOf(limits), History(start, attempt, probes, i)).db,
             KeysFor(attempt)[i], TiersFor(limits, attempt, i), probes[i].at)
  }

  /** A bucket without tiers passes without asking; any other must be answered. */
  predicate Heard(limits: Limits, attempt: Attempt, probes: seq<Probe>, i: nat)
    requires |probes| == 3 && i < 3
  {
    TiersFor(limits, attempt, i) == [] || probes[i].up
  }

  function Outcomes(limits: Limits, start: seq<Step>, attempt: Attempt, probes: seq<Probe>): (outcomes: seq<Outcome>)
    requires |probes| == 3
    ensures |outcomes| == 3
  {
    seq(3, i requires 0 <= i < 3 =>
      if Heard(limits, attempt, probes, i) then Answered(Answer(limits, start, attempt, probes, i)) else Unavailable)
  }

  function GuardDecides(limits: Limits, start: seq<Step>, attempt: Attempt, probes: seq<Probe>): Decision
    requires |probes| == 3
  {
    Decide(Outcomes(limits, start, attempt, probes), 0)
  }

  /** The verdict of a read is what its check step answers in the run. */
  lemma ReadIsACheckStep(limits: Limits, start: seq<Step>, attempt: Attempt, probes: seq<Probe>, i: nat)
    requires |probes| == 3 && i < 3
    ensures var before := History(start, attempt, probes, i);
            var world := Happened(TiersOf(limits), before + [Check(KeysFor(attempt)[i], probes[i].at)]);
            && world.answers == Happened(TiersOf(limits), before).answers
                                + [Some(Answer(limits, start, attempt, probes, i))]
            && world.db == Happened(TiersOf(limits), before).db
  {
    hide CheckKey, TiersOf, KeysFor, History;
    var before := History(start, attempt, probes, i);
    var step := Check(KeysFor(attempt)[i], probes[i].at);
    assert (before + [step])[..|before|] == before;
  }

  /** The log of a bucket when it is read. */
  function LogAt(limits: Limits, start: seq<Step>, attempt: Attempt, probes: seq<Probe>, i: nat): seq<nat>
    requires |probes| == 3 && i < 3
  {
    LogOf(PlainHappened(TiersOf(limits), History(start, attempt, probes, i)).logs, KeysFor(attempt)[i])
  }

  lemma AnswerReadsTheLog(limits: Limits, start: seq<Step>, attempt: Attempt, probes: seq<Probe>, i: nat)
    requires |probes| == 3 && AllWindowed(TiersOf(limits)) && InTime(start, attempt, probes) && i < 3
    ensures Answer(limits, start, attempt, probes, i)
            == PlainVerdict(LogAt(limits, start, attempt, probes, i), TiersFor(limits, attempt, i), probes[i].at)
  {
    hide Happened, PlainHappened, CheckKey, PlainVerdict, KeyTracks, KeysFor, TiersOf, InOrder, Until;
    var tiersOf, before := TiersOf(limits), History(start, attempt, probes, i);
    ChecksReadTheFailures(tiersOf, before, probes[i].at);
    CheckReadsTheLog(Happened(tiersOf, before).db, KeysFor(attempt)[i], TiersFor(limits, attempt, i), probes[i].at,
                     LogAt(limits, start, attempt, probes, i));
  }

  lemma AnswersWaitPositively(limits: Limits, start: seq<Step>, attempt: Attempt, probes: seq<Probe>)
    requires |probes| == 3
    ensures WaitsArePositive(Outcomes(limits, start, attempt, probes))
  {
    hide CheckKey, TiersOf, KeysFor, History;
    forall i | 0 <= i < 3
      ensures var v := Answer(limits, start, attempt, probes, i); !v.allowed ==> v.wait > 0
    {
      ChecksWaitPositively(Happened(TiersOf(limits), History(start, attempt, probes, i)).db,
                           KeysFor(attempt)[i], TiersFor(limits, attempt, i), probes[i].at);
    }
  }

  /** Over every run: the guard lets an attempt through exactly when each bucket
      with tiers answered, and had room in every tier, when it was read. */
  lemma {:induction false} GuardPassesIffRoom(limits: Limits, start: seq<Step>, attempt: Attempt, probes: seq<Probe>)
    requires |probes| == 3 && AllWindowed(TiersOf(limits)) && InTime(start, attempt, probes)
    ensures GuardDecides(limits, start, attempt, probes).Pass? <==>
            forall i :: 0 <= i < 3 ==>
              Heard(limits, attempt, probes, i)
              && HasRoom(LogAt(limits, start, attempt, probes, i), TiersFor(limits, attempt, i), probes[i].at)
  {
    hide LogAt, Answer, PlainVerdict, HasRoom, KeysFor, TiersOf, Decide, InTime, TiersFor;
    AnswersWaitPositively(limits, start, attempt, probes);
    var outcomes := Outcomes(limits, start, attempt, probes);
    forall i | 0 <= i < 3
      ensures outcomes[i].Answered? && outcomes[i].verdict.allowed <==>
              Heard(limits, attempt, probes, i)
              && HasRoom(LogAt(limits, start, attempt, probes, i), TiersFor(limits, attempt, i), probes[i].at)
    {
      AnswerReadsTheLog(limits, start, attempt, probes, i);
      BucketIsWindowed(limits, attempt, i);
      VerdictMeansRoom(LogAt(limits, start, attempt, probes, i), TiersFor(limits, attempt, i), probes[i].at);
    }
    PassesOnlyWithRoomEverywhere(outcomes, 0);
  }

  /** The guard's method is this function of the run, when each of its calls finds
      what the run has left by then. */
  lemma MethodDecidesInRuns(guard: Guard, limits: Limits, start: seq<Step>, attempt: Attempt, probes: seq<Probe>,
                            calls: seq<Moment>)
    requires |probes| == 3 && |calls| == 3
    requires forall i :: 0 <= i < 3 ==>
               && guard.Counter(i).tiers == TiersFor(limits, attempt, i)
               && calls[i].db == Happened(TiersOf(limits), History(start, attempt, probes, i)).db
               && calls[i].at == probes[i].at && (calls[i].line.Up? <==> probes[i].up)
    ensures guard.Outcomes(attempt, calls) == Outcomes(limits, start, attempt, probes)
    ensures Decide(guard.Outcomes(attempt, calls), 0) == GuardDecides(limits, start, attempt, probes)
  {
    hide CheckKey, Happened, History, TiersOf, KeysFor, Decide;
  }

  lemma BucketIsWindowed(limits: Limits, attempt: Attempt, i: nat)
    requires AllWindowed(TiersOf(limits)) && i < 3
    ensures Windowed(TiersFor(limits, attempt, i))
  {
    hide TiersOf, KeysFor, Windowed;
  }

  // ------------------------------------------------------------- refusals

  /** A later run continues an earlier one. */
  lemma {:induction false} HistoryGrows(start: seq<Step>, attempt: Attempt, probes: seq<Probe>, i: nat, j: nat)
    requires |probes| == 3 && i <= j <= 3
    ensures start <= History(start, attempt, probes, i) <= History(start, attempt, probes, j)
    decreases j
  {
    if i < j {
      HistoryGrows(start, attempt, probes, i, j - 1);
    } else if i > 0 {
      HistoryGrows(start, attempt, probes, i - 1, i - 1);
    }
  }

  /** What happened after the read of a bucket in one attempt and before its read in
      a later one. */
  function Since(start: seq<Step>, attempt: Attempt, probes: seq<Probe>, later: seq<Probe>, i: nat): (more: seq<Step>)
    requires |probes| == 3 && |later| == 3 && i < 3
    ensures History(start, attempt, probes, i) + more == History(History(start, attempt, probes, 3), attempt, later, i)
  {
    HistoryGrows(start, attempt, probes, i, 3);
    HistoryGrows(History(start, attempt, probes, 3), attempt, later, 0, i);
    History(History(start, attempt, probes, 3), attempt, later, i)[|History(start, attempt, probes, i)|..]
  }

  predicate NeverReset(steps: seq<Step>, key: string) {
    forall n :: 0 <= n < |steps| ==> steps[n] != Reset(key, steps[n].at)
  }

  /** The wait a guard names is that of one bucket, from that bucket's own read. */
  lemma {:induction false} DecidingBucket(limits: Limits, start: seq<Step>, attempt: Attempt, probes: seq<Probe>)
      returns (i: nat)
    requires |probes| == 3 && (forall n :: 0 <= n < 3 ==> Heard(limits, attempt, probes, n))
    requires GuardDecides(limits, start, attempt, probes).TooManyAttempts?
    ensures i < 3 && !Answer(limits, start, attempt, probes, i).allowed
    ensures GuardDecides(limits, start, attempt, probes).retryAfter
            == Answer(limits, start, attempt, probes, i).wait > 0
  {
    hide Answer, Decide;
    AnswersWaitPositively(limits, start, attempt, probes);
    var outcomes := Outcomes(limits, start, attempt, probes);
    PassesOnlyWithRoomEverywhere(outcomes, 0);
    i :| 0 <= i < 3 && Refuses(outcomes[i]) && outcomes[i].verdict.wait == Decide(outcomes, 0).retryAfter;
  }

  /** A bucket that refused keeps every later attempt out whose own read of it comes
      before its wait is over, unless it was reset in between. */
  lemma {:induction false} RefusedBucketStands(limits: Limits, start: seq<Step>, attempt: Attempt, probes: seq<Probe>,
                                               later: seq<Probe>, i: nat)
    requires |probes| == 3 && |later| == 3 && AllWindowed(TiersOf(limits)) && i < 3
    requires InTime(start, attempt, probes) && InTime(History(start, attempt, probes, 3), attempt, later)
    requires !Answer(limits, start, attempt, probes, i).allowed
    requires probes[i].at <= later[i].at < probes[i].at + Answer(limits, start, attempt, probes, i).wait
    requires NeverReset(Since(start, attempt, probes, later, i), KeysFor(attempt)[i])
    ensures !GuardDecides(limits, History(start, attempt, probes, 3), attempt, later).Pass?
  {
    hide CheckKey, TiersOf, KeysFor, Decide, AllWindowed, InOrder, Until, WaitsArePositive, History, Since;
    var start' := History(start, attempt, probes, 3);
    var more := Since(start, attempt, probes, later, i);
    RefusalStands(TiersOf(limits), History(start, attempt, probes, i), KeysFor(attempt)[i],
                  probes[i].at, more, later[i].at);
    AnswersWaitPositively(limits, start', attempt, later);
    var outcomes := Outcomes(limits, start', attempt, later);
    PassesOnlyWithRoomEverywhere(outcomes, 0);
    assert outcomes[i].Answered? ==> !outcomes[i].verdict.allowed;
  }

  predicate OnlyAccountsAreReset(steps: seq<Step>) {
    forall i :: 0 <= i < |steps| && steps[i].Reset? ==> IsAccountKey(steps[i].key)
  }

  lemma NotReset(attempt: Attempt, more: seq<Step>, i: nat)
    requires i < 3 && OnlyAccountsAreReset(more) && NeverReset(more, AccountKey(attempt.accountDigest))
    ensures NeverReset(more, KeysFor(attempt)[i])
  {
    if i > 0 {
      var key := KeysFor(attempt)[i];
      assert key[0] == if i == 1 then 'i' else 'n';
      assert !IsAccountKey(key);
    }
  }

  /** A wait the guard names is one before which the same attempt is refused again,
      counted from its first read, unless the account's failures are forgotten. */
  lemma {:induction false} GuardRefusalStands(limits: Limits, start: seq<Step>, attempt: Attempt, probes: seq<Probe>,
                                              later: seq<Probe>)
    requires |probes| == 3 && |later| == 3 && AllWindowed(TiersOf(limits))
    requires InTime(start, attempt, probes) && InTime(History(start, attempt, probes, 3), attempt, later)
    requires forall i :: 0 <= i < 3 ==> Heard(limits, attempt, probes, i) && probes[0].at <= probes[i].at <= later[i].at
    requires GuardDecides(limits, start, attempt, probes).TooManyAttempts?
    requires forall i :: 0 <= i < 3 ==>
               && later[i].at < probes[0].at + GuardDecides(limits, start, attempt, probes).retryAfter
               && OnlyAccountsAreReset(Since(start, attempt, probes, later, i))
               && NeverReset(Since(start, attempt, probes, later, i), AccountKey(attempt.accountDigest))
    ensures !GuardDecides(limits, History(start, attempt, probes, 3), attempt, later).Pass?
  {
    hide Answer, GuardDecides, InTime, AllWindowed, TiersOf, Since, NeverReset, OnlyAccountsAreReset, KeysFor, History;
    var i := DecidingBucket(limits, start, attempt, probes);
    NotReset(attempt, Since(start, attempt, probes, later, i), i);
    RefusedBucketStands(limits, start, attempt, probes, later, i);
  }
}
