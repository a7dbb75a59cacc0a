/** Sessions under every interleaving of requests and revocations. A request
    reads its row, later judges it by the service's clock, and later still may
    write the deadline it computed from what it read; rows may change or go in
    between. Clocks never go back. */
module SessionRuns {
  import opened Results
  import opened Sessions

  datatype Request =
    | HasRead(id: nat, row: Session)
    | Renewing(id: nat, row: Session, at: nat)
    | Answered(id: nat, user: nat, at: nat)
    | Refused

  /** `used`, `wrote` and `gone` are bookkeeping: when a session was last used, its
      issue being its first use; the use its stored deadline was computed for; and
      which sessions were deleted. */
  datatype State = State(tables: Tables, requests: map<nat, Request>, clock: nat,
                         used: map<nat, nat>, wrote: map<nat, nat>, gone: set<nat>)

  datatype Action =
    | Register(user: nat)
    | MaskUser(user: nat)
    | Issue(id: nat, user: nat, now: nat, created: nat)
    | Read(r: nat, token: nat)
    | Judge(r: nat, now: nat)
    | Touch(r: nat, now: nat)
    | LoseWrite(r: nat)
    | Revoke(token: nat)
    | RevokeByID(user: nat, id: nat)
    | RevokeOthers(user: nat, current: nat)
    | SignOutEverywhere(user: nat)

  function Delete(s: State, ids: set<nat>): State {
    s.(tables := Without(s.tables, ids), gone := s.gone + (ids * s.tables.sessions.Keys))
  }

  function SessionsOf(t: Tables, user: nat): set<nat> {
    set x | x in t.sessions && t.sessions[x].user == user
  }

  /** Tokens are random: one that was issued is never issued again. */
  function IssueStep(s: State, id: nat, user: nat, now: nat, created: nat): State {
    if id in s.tables.sessions || id in s.gone || !(s.clock <= now <= created) then s
    else s.(tables := s.tables.(sessions := s.tables.sessions[id :=
                                            Session(user, created, created, NewSessionExpiry(now))]),
            clock := created, used := s.used[id := now], wrote := s.wrote[id := now])
  }

  function ReadStep(s: State, r: nat, token: nat): State {
    match Lookup(s.tables, token)
    case None => s.(requests := s.requests[r := Refused])
    case Some(row) => s.(requests := s.requests[r := HasRead(token, row)])
  }

  function JudgeStep(s: State, r: nat, q: Request, now: nat): State
    requires q.HasRead?
  {
    if IsExpired(q.row, now) then s.(requests := s.requests[r := Refused], clock := now)
    else s.(requests := s.requests[r := if NeedsRenewal(q.row, now) then Renewing(q.id, q.row, now)
                                         else Answered(q.id, q.row.user, now)],
            clock := now, used := s.used[q.id := now])
  }

  function TouchStep(s: State, r: nat, q: Request, now: nat): State
    requires q.Renewing?
  {
    s.(tables := Touched(s.tables, q.id, RenewedExpiry(q.row, q.at), now),
       requests := s.requests[r := Answered(q.id, q.row.user, q.at)], clock := now, wrote := s.wrote[q.id := q.at])
  }

  function Next(s: State, a: Action): State {
    match a
    case Register(user) => s.(tables := s.tables.(live := s.tables.live + {user}))
    case MaskUser(user) => s.(tables := s.tables.(live := s.tables.live - {user}))
    case Issue(id, user, now, created) => IssueStep(s, id, user, now, created)
    case Read(r, token) => if r in s.requests then s else ReadStep(s, r, token)
    case Judge(r, now) =>
      if r in s.requests && s.requests[r].HasRead? && s.clock <= now then JudgeStep(s, r, s.requests[r], now) else s
    case Touch(r, now) =>
      if r in s.requests && s.requests[r].Renewing? && s.clock <= now then TouchStep(s, r, s.requests[r], now) else s
    case LoseWrite(r) =>
      if r in s.requests && s.requests[r].Renewing?
      then var q := s.requests[r]; s.(requests := s.requests[r := Answered(q.id, q.row.user, q.at)]) else s
    case Revoke(token) => Delete(s, {token})
    case RevokeByID(user, id) =>
      if id in s.tables.sessions && s.tables.sessions[id].user == user then Delete(s, {id}) else s
    case RevokeOthers(user, current) => Delete(s, OthersOf(s.tables, user, current))
    case SignOutEverywhere(user) => Delete(s, SessionsOf(s.tables, user))
  }

  const NOTHING := State(Tables(map[], {}), map[], 0, map[], map[], {})

  function Run(actions: seq<Action>): State {
    if actions == [] then NOTHING
    else Next(Run(actions[..|actions| - 1]), actions[|actions| - 1])
  }

  // ------------------------------------------------------------- invariant

  /** A row, stored or read, is within its ceiling and 14 days of the last use. */
  predicate Within(row: Session, lastUse: nat) {
    row.expiresAt <= row.createdAt + ABSOLUTE_WINDOW && row.expiresAt <= lastUse + IDLE_WINDOW
  }

  predicate RowSound(s: State, id: nat)
    requires id in s.tables.sessions
  {
    && id !in s.gone && id in s.used && Within(s.tables.sessions[id], s.used[id])
    && id in s.wrote && s.tables.sessions[id].expiresAt == RenewedExpiry(s.tables.sessions[id], s.wrote[id])
  }

  predicate SameSession(row: Session, stored: Session) {
    row.createdAt == stored.createdAt && row.user == stored.user
  }

  /** What a request read was a row of the session it will touch. */
  predicate RequestSound(s: State, q: Request) {
    match q
    case HasRead(id, row) =>
      && id in s.used && Within(row, s.used[id]) && (id in s.tables.sessions || id in s.gone)
      && (id in s.tables.sessions ==> SameSession(row, s.tables.sessions[id]))
    case Renewing(id, row, at) =>
      && id in s.used && at <= s.used[id] && (id in s.tables.sessions || id in s.gone)
      && (id in s.tables.sessions ==> SameSession(row, s.tables.sessions[id]))
    case _ => true
  }

  ghost predicate Sound(s: State) {
    && (forall id :: id in s.tables.sessions ==> RowSound(s, id))
    && (forall r :: r in s.requests ==> RequestSound(s, s.requests[r]))
    && (forall id :: id in s.used ==> s.used[id] <= s.clock)
    && (forall id :: id in s.gone ==> id !in s.tables.sessions)
  }

  lemma IssueKeepsSound(s: State, id: nat, user: nat, now: nat, created: nat)
    requires Sound(s)
    ensures Sound(IssueStep(s, id, user, now, created))
  {
    var s' := IssueStep(s, id, user, now, created);
    forall r | r in s'.requests ensures RequestSound(s', s'.requests[r]) {
      assert RequestSound(s, s.requests[r]);
    }
    forall x | x in s'.tables.sessions ensures RowSound(s', x) {
      assert x != id ==> RowSound(s, x);
    }
  }

  lemma ReadKeepsSound(s: State, r: nat, token: nat)
    requires Sound(s)
    ensures Sound(ReadStep(s, r, token))
  {
    var s' := ReadStep(s, r, token);
    forall p | p in s'.requests ensures RequestSound(s', s'.requests[p]) {
      assert p != r ==> RequestSound(s, s.requests[p]);
      assert token in s.tables.sessions ==> RowSound(s, token);
    }
    forall x | x in s'.tables.sessions ensures RowSound(s', x) {
      assert RowSound(s, x);
    }
  }

  lemma JudgeKeepsSound(s: State, r: nat, now: nat)
    requires Sound(s) && r in s.requests && s.requests[r].HasRead? && s.clock <= now
    ensures Sound(JudgeStep(s, r, s.requests[r], now))
  {
    var s' := JudgeStep(s, r, s.requests[r], now);
    assert RequestSound(s, s.requests[r]);
    forall p | p in s'.requests ensures RequestSound(s', s'.requests[p]) {
      assert p != r ==> RequestSound(s, s.requests[p]);
    }
    forall x | x in s'.tables.sessions ensures RowSound(s', x) {
      assert RowSound(s, x);
    }
  }

  lemma TouchKeepsSound(s: State, r: nat, now: nat)
    requires Sound(s) && r in s.requests && s.requests[r].Renewing? && s.clock <= now
    ensures Sound(TouchStep(s, r, s.requests[r], now))
  {
    var s' := TouchStep(s, r, s.requests[r], now);
    assert RequestSound(s, s.requests[r]);
    forall p | p in s'.requests ensures RequestSound(s', s'.requests[p]) {
      assert p != r ==> RequestSound(s, s.requests[p]);
    }
    forall x | x in s'.tables.sessions ensures RowSound(s', x) {
      assert RowSound(s, x);
    }
  }

  lemma DeleteKeepsSound(s: State, ids: set<nat>)
    requires Sound(s)
    ensures Sound(Delete(s, ids))
  {
    var s' := Delete(s, ids);
    forall p | p in s'.requests ensures RequestSound(s', s'.requests[p]) {
      assert RequestSound(s, s.requests[p]);
    }
    forall x | x in s'.tables.sessions ensures RowSound(s', x) {
      assert RowSound(s, x);
    }
  }

  lemma OthersKeepSound(s: State, a: Action)
    requires Sound(s) && (a.Register? || a.MaskUser? || a.LoseWrite?)
    ensures Sound(Next(s, a))
  {
    var s' := Next(s, a);
    forall p | p in s'.requests ensures RequestSound(s', s'.requests[p]) {
      assert RequestSound(s, s.requests[p]);
    }
    forall x | x in s'.tables.sessions ensures RowSound(s', x) {
      assert RowSound(s, x);
    }
  }

  lemma StepKeepsSound(s: State, a: Action)
    requires Sound(s)
    ensures Sound(Next(s, a))
  {
    hide Sound, Delete, IssueStep, ReadStep, JudgeStep, TouchStep;
    match a
    case Issue(id, user, now, created) => IssueKeepsSound(s, id, user, now, created);
    case Read(r, token) => ReadKeepsSound(s, r, token);
    case Judge(r, now) =>
      if r in s.requests && s.requests[r].HasRead? && s.clock <= now { JudgeKeepsSound(s, r, now); }
    case Touch(r, now) =>
      if r in s.requests && s.requests[r].Renewing? && s.clock <= now { TouchKeepsSound(s, r, now); }
    case Revoke(token) => DeleteKeepsSound(s, {token});
    case RevokeByID(user, id) => DeleteKeepsSound(s, {id});
    case RevokeOthers(user, current) => DeleteKeepsSound(s, OthersOf(s.tables, user, current));
    case SignOutEverywhere(user) => DeleteKeepsSound(s, SessionsOf(s.tables, user));
    case _ => OthersKeepSound(s, a);
  }

  lemma {:induction false} RunsAreSound(actions: seq<Action>)
    ensures Sound(Run(actions))
  {
    if actions != [] {
      hide Next, Sound;
      RunsAreSound(actions[..|actions| - 1]);
      StepKeepsSound(Run(actions[..|actions| - 1]), actions[|actions| - 1]);
    }
  }

  // -------------------------------------------------------------- deadlines

  /** Whatever stale writes race, a deadline never passes ninety days from issue
      nor fourteen from the last accepted use. */
  lemma DeadlinesAreBounded(actions: seq<Action>, id: nat)
    requires id in Run(actions).tables.sessions
    ensures var s := Run(actions);
            && id in s.used && s.used[id] <= s.clock
            && s.tables.sessions[id].expiresAt <= s.tables.sessions[id].createdAt + 7_776_000_000
            && s.tables.sessions[id].expiresAt <= s.used[id] + 1_209_600_000
  {
    hide Run;
    RunsAreSound(actions);
    assert RowSound(Run(actions), id);
  }

  /** A request is accepted only before ninety days from issue and within fourteen
      days of the use before it, even when the row it read is stale or gone. */
  lemma AcceptedUseIsRecent(actions: seq<Action>, r: nat, now: nat)
    requires var s := Run(actions);
             r in s.requests && s.requests[r].HasRead? && s.clock <= now && !IsExpired(s.requests[r].row, now)
    ensures var s := Run(actions);
            var q := s.requests[r];
            q.id in s.used && now < s.used[q.id] + 1_209_600_000 && now < q.row.createdAt + 7_776_000_000
  {
    hide Run;
    RunsAreSound(actions);
    assert RequestSound(Run(actions), Run(actions).requests[r]);
  }

  // -------------------------------------------------------------- deletion

  /** Everything deleted stays deleted and unread; a request on a deleted session
      had read its row before. */
  ghost predicate StaysDeleted(s: State, s': State, id: nat) {
    && id in s'.gone && id !in s'.tables.sessions
    && (forall r :: r in s'.requests && s'.requests[r].HasRead? && s'.requests[r].id == id ==>
          r in s.requests && s.requests[r].HasRead? && s.requests[r].id == id)
  }

  lemma StepKeepsDeleted(s: State, a: Action, id: nat)
    requires id in s.gone && id !in s.tables.sessions
    ensures StaysDeleted(s, Next(s, a), id)
  {
  }

  lemma StaysDeletedTransitive(s: State, s': State, s'': State, id: nat)
    requires StaysDeleted(s, s', id) && StaysDeleted(s', s'', id)
    ensures StaysDeleted(s, s'', id)
  {
  }

  lemma {:induction false} DeletedStaysDeleted(actions: seq<Action>, more: seq<Action>, id: nat)
    requires id in Run(actions).gone
    ensures StaysDeleted(Run(actions), Run(actions + more), id)
  {
    hide Next, Run;
    RunsAreSound(actions);
    if more == [] {
      assert actions + more == actions;
    } else {
      hide StaysDeleted;
      var front, last := more[..|more| - 1], more[|more| - 1];
      DeletedStaysDeleted(actions, front, id);
      RunStep(actions + front, last);
      assert actions + front + [last] == actions + more;
      DeletedNow(actions, front, id);
      StepKeepsDeleted(Run(actions + front), last, id);
      StaysDeletedTransitive(Run(actions), Run(actions + front), Run(actions + more), id);
    }
  }

  lemma DeletedNow(actions: seq<Action>, more: seq<Action>, id: nat)
    requires StaysDeleted(Run(actions), Run(actions + more), id)
    ensures id in Run(actions + more).gone && id !in Run(actions + more).tables.sessions
  {
  }

  lemma RunStep(actions: seq<Action>, a: Action)
    ensures Run(actions + [a]) == Next(Run(actions), a)
  {
    assert (actions + [a])[..|actions|] == actions;
  }

  /** A session that is deleted, by any route, is never signed in again by a
      request that reads after that, and no late write brings its row back. */
  lemma DeletedIsNeverAccepted(actions: seq<Action>, more: seq<Action>, id: nat, r: nat, now: nat)
    requires id in Run(actions).gone
    ensures Accepts(Run(actions + more).tables, Some(id), now) == None
    ensures r !in Run(actions + more).requests ==> Next(Run(actions + more), Read(r, id)).requests[r] == Refused
  {
    hide Run;
    DeletedStaysDeleted(actions, more, id);
  }

  /** Every route that ends a session ends it for good, and no other session. */
  lemma RevokingEndsExactly(s: State, user: nat, current: nat, x: nat)
    requires Sound(s) && x in s.tables.sessions
    ensures x in Next(s, Revoke(current)).gone <==> x == current
    ensures x in Next(s, RevokeByID(user, current)).gone <==> x == current && s.tables.sessions[x].user == user
    ensures x in Next(s, RevokeOthers(user, current)).gone <==> x != current && s.tables.sessions[x].user == user
    ensures x in Next(s, SignOutEverywhere(user)).gone <==> s.tables.sessions[x].user == user
  {
    assert RowSound(s, x);
  }

  // ------------------------------------------------------------ one request

  /** Read, judged and written without interruption, a request is Authenticate. */
  lemma UninterruptedIsAuthenticate(s: State, r: nat, token: nat, now: nat, later: nat)
    requires r !in s.requests && s.clock <= now <= later
    ensures var s1 := Next(s, Read(r, token));
            var s2 := Next(s1, Judge(r, now));
            var s3 := Next(s2, Touch(r, later));
            && s3.tables == AfterRequest(s.tables, Some(token), now, later, true)
            && (s3.requests[r].Answered? <==> Accepts(s.tables, Some(token), now).Some?)
            && (s3.requests[r].Answered? ==> Accepts(s.tables, Some(token), now) == Some(s3.requests[r].user))
  {
  }

  // --------------------------------------------------------- the hour's grace

  /** After its last use, a session's deadline is at most an hour short of what an
      unconditional renewal would have given it. */
  predicate GraceHolds(row: Session, lastUse: nat) {
    row.expiresAt + 3_600_000 >= Min(lastUse + 1_209_600_000, row.createdAt + 7_776_000_000)
  }

  /** In every run the grace holds exactly when the write that landed last was
      computed for a use no more than an hour before the last one, or for one from
      which the ceiling was within the hour. */
  lemma {:induction false} GraceHoldsIff(actions: seq<Action>, id: nat)
    requires id in Run(actions).tables.sessions
    ensures var s := Run(actions);
            && id in s.used && id in s.wrote
            && var row := s.tables.sessions[id];
            GraceHolds(row, s.used[id]) <==>
            || s.used[id] <= s.wrote[id] + RENEWAL_FLOOR
            || row.createdAt + ABSOLUTE_WINDOW <= s.wrote[id] + IDLE_WINDOW + RENEWAL_FLOOR
  {
    hide Run;
    RunsAreSound(actions);
    assert RowSound(Run(actions), id);
  }

  /** Of two racing renewals the order of the writes decides: in the order of their
      uses the grace holds, and the other way round it holds exactly when the two
      uses, or the ceiling, are within the hour. */
  lemma LateWriteShortens(s: State, late: nat, q: nat, first: nat, second: nat)
    requires late != q && late in s.requests && q in s.requests && s.requests[q].HasRead?
    requires s.requests[late].Renewing? && s.requests[late].at == first && s.clock <= second
    requires s.requests[late].id == s.requests[q].id && s.requests[q].id in s.tables.sessions
    requires SameSession(s.requests[q].row, s.tables.sessions[s.requests[q].id])
             && SameSession(s.requests[late].row, s.tables.sessions[s.requests[q].id])
    requires NeedsRenewal(s.requests[q].row, second) && !IsExpired(s.requests[q].row, second)
    ensures var id := s.requests[q].id;
            var ceiling := s.requests[q].row.createdAt + ABSOLUTE_WINDOW;
            var judged := Next(s, Judge(q, second));
            var inOrder := Next(Next(judged, Touch(late, second)), Touch(q, second));
            var lateLast := Next(Next(judged, Touch(q, second)), Touch(late, second));
            && GraceHolds(inOrder.tables.sessions[id], second)
            && (GraceHolds(lateLast.tables.sessions[id], second) <==>
                second <= first + RENEWAL_FLOOR || ceiling <= first + IDLE_WINDOW + RENEWAL_FLOOR)
  {
  }

  const TWO_HOURS: nat := 2 * 3_600_000
  const TEN_HOURS: nat := 10 * 3_600_000

  /** Two requests that read one row, used two hours and ten hours after issue,
      written the other way round. */
  const RACE := [Register(1), Issue(7, 1, 0, 0), Read(0, 7), Read(1, 7),
                 Judge(0, TWO_HOURS), Judge(1, TEN_HOURS), Touch(1, TEN_HOURS), Touch(0, TEN_HOURS)]

  /** A run in which the grace fails. */
  lemma {:induction false} LateWriteHappens()
    ensures var s := Run(RACE);
            && 7 in s.tables.sessions && 7 in s.used && s.used[7] == TEN_HOURS
            && s.tables.sessions[7].expiresAt == TWO_HOURS + IDLE_WINDOW
            && !GraceHolds(s.tables.sessions[7], s.used[7])
  {
    hide Run, Next;
    var issued := IssuedRun();
    RunOf(RACE, 4);
    RunOf(RACE, 5);
    RunOf(RACE, 6);
    RunOf(RACE, 7);
    RacingSteps(issued);
    assert RACE[..8] == RACE;
  }

  lemma RunOf(actions: seq<Action>, n: nat)
    requires n < |actions|
    ensures Run(actions[..n + 1]) == Next(Run(actions[..n]), actions[n])
  {
    hide Next;
    assert actions[..n + 1] == actions[..n] + [actions[n]];
    RunStep(actions[..n], actions[n]);
  }

  /** The row both requests of the race read. */
  const ISSUED := Session(1, 0, 0, IDLE_WINDOW)

  lemma IssuedRun() returns (s: State)
    ensures s == Run(RACE[..4])
    ensures s.tables == Tables(map[7 := ISSUED], {1}) && s.clock == 0 && s.used == map[7 := 0]
    ensures s.requests == map[0 := HasRead(7, ISSUED), 1 := HasRead(7, ISSUED)]
  {
    hide Run;
    RunOf(RACE, 0);
    RunOf(RACE, 1);
    RunOf(RACE, 2);
    RunOf(RACE, 3);
    StartsEmpty();
    s := Run(RACE[..4]);
  }

  lemma StartsEmpty()
    ensures Run(RACE[..0]) == NOTHING
  {
  }

  lemma RacingSteps(s: State)
    requires s.tables == Tables(map[7 := ISSUED], {1}) && s.clock == 0 && s.used == map[7 := 0]
    requires s.requests == map[0 := HasRead(7, ISSUED), 1 := HasRead(7, ISSUED)]
    ensures var judged := Next(Next(s, Judge(0, TWO_HOURS)), Judge(1, TEN_HOURS));
            var raced := Next(Next(judged, Touch(1, TEN_HOURS)), Touch(0, TEN_HOURS));
            && raced.tables.sessions == map[7 := Session(1, 0, TEN_HOURS, TWO_HOURS + IDLE_WINDOW)]
            && raced.used == map[7 := TEN_HOURS]
  {
    var judged := Next(Next(s, Judge(0, TWO_HOURS)), Judge(1, TEN_HOURS));
    BothJudged(s);
    hide Next;
    OneWrites(judged, 1, TEN_HOURS);
    OneWrites(Next(judged, Touch(1, TEN_HOURS)), 0, TWO_HOURS);
  }

  lemma BothJudged(s: State)
    requires s.tables == Tables(map[7 := ISSUED], {1}) && s.clock == 0 && s.used == map[7 := 0]
    requires s.requests == map[0 := HasRead(7, ISSUED), 1 := HasRead(7, ISSUED)]
    ensures var judged := Next(Next(s, Judge(0, TWO_HOURS)), Judge(1, TEN_HOURS));
            && judged.tables == s.tables && judged.clock == TEN_HOURS && judged.used == map[7 := TEN_HOURS]
            && judged.requests == map[0 := Renewing(7, ISSUED, TWO_HOURS), 1 := Renewing(7, ISSUED, TEN_HOURS)]
  {
    var one := Next(s, Judge(0, TWO_HOURS));
    assert one.requests == map[0 := Renewing(7, ISSUED, TWO_HOURS), 1 := HasRead(7, ISSUED)];
  }

  lemma OneWrites(s: State, r: nat, at: nat)
    requires s.tables.sessions.Keys == {7} && SameSession(ISSUED, s.tables.sessions[7])
    requires r in s.requests && s.requests[r] == Renewing(7, ISSUED, at) && s.clock <= TEN_HOURS && at <= TEN_HOURS
    ensures var s' := Next(s, Touch(r, TEN_HOURS));
            && s'.tables.sessions == map[7 := Session(1, 0, TEN_HOURS, at + IDLE_WINDOW)]
            && s'.clock == TEN_HOURS && s'.used == s.used
            && s'.requests == s.requests[r := Answered(7, 1, at)]
  {
  }
}
