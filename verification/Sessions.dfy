/** Session deadlines, the statements that move or delete session rows, and the
    service over them. Times are milliseconds. */
module Sessions {
  import opened Results

  const IDLE_WINDOW: nat := 14 * 24 * 3_600_000
  const ABSOLUTE_WINDOW: nat := 90 * 24 * 3_600_000
  const RENEWAL_FLOOR: nat := 3_600_000

  datatype Session = Session(user: nat, createdAt: nat, lastSeenAt: nat, expiresAt: nat)

  function NewSessionExpiry(now: nat): nat {
    now + IDLE_WINDOW
  }

  predicate IsExpired(s: Session, now: nat) {
    s.expiresAt <= now
  }

  function RenewedExpiry(s: Session, now: nat): nat {
    var absolute := s.createdAt + ABSOLUTE_WINDOW;
    var renewed := now + IDLE_WINDOW;
    if renewed > absolute then absolute else renewed
  }

  predicate NeedsRenewal(s: Session, now: nat) {
    RenewedExpiry(s, now) - s.expiresAt > RENEWAL_FLOOR
  }

  /** Token digests are unique, so one number stands for a row and its token.
      `live` is the view of accounts that are not masked. */
  datatype Tables = Tables(sessions: map<nat, Session>, live: set<nat>)

  datatype Error = SessionNotFound | NotAnId

  /** What a token reads: its row, while its account is live. */
  function Lookup(t: Tables, token: nat): Option<Session> {
    if token in t.sessions && t.sessions[token].user in t.live then Some(t.sessions[token]) else None
  }

  function Touched(t: Tables, id: nat, expiresAt: nat, now: nat): Tables {
    if id in t.sessions
    then t.(sessions := t.sessions[id := t.sessions[id].(lastSeenAt := now, expiresAt := expiresAt)])
    else t
  }

  /** DELETE FROM sessions, of the rows named. */
  function Without(t: Tables, ids: set<nat>): Tables {
    t.(sessions := t.sessions - ids)
  }

  function OthersOf(t: Tables, user: nat, current: nat): set<nat> {
    set x | x in t.sessions && t.sessions[x].user == user && x != current
  }

  /** Whom a token signs in at an instant; None is a value that is no token. */
  function Accepts(t: Tables, token: Option<nat>, now: nat): Option<nat> {
    if token.None? then None
    else
      match Lookup(t, token.value)
      case None => None
      case Some(row) => if IsExpired(row, now) then None else Some(row.user)
  }

  /** What an undisturbed request leaves behind; `written` says whether its write,
      if it makes one, succeeds. */
  function AfterRequest(t: Tables, token: Option<nat>, now: nat, later: nat, written: bool): Tables {
    if Accepts(t, token, now).None? || !written then t
    else
      var row := t.sessions[token.value];
      if NeedsRenewal(row, now) then Touched(t, token.value, RenewedExpiry(row, now), later) else t
  }

  class SessionStore {
    var sessions: map<nat, Session>
    var live: set<nat>

    constructor (live: set<nat>)
      ensures Contents() == Tables(map[], live)
    {
      sessions, this.live := map[], live;
    }

    function Contents(): Tables
      reads this
    {
      Tables(sessions, live)
    }

    method CreateSession(id: nat, user: nat, expiresAt: nat, now: nat) returns (created: bool)
      modifies this
      ensures created <==> id !in old(sessions)
      ensures Contents() ==
              if created then old(Contents()).(sessions := old(sessions)[id := Session(user, now, now, expiresAt)])
              else old(Contents())
    {
      created := id !in sessions;
      if created {
        sessions := sessions[id := Session(user, now, now, expiresAt)];
      }
    }

    method GetSessionByTokenHash(token: nat) returns (row: Option<Session>)
      ensures row == Lookup(Contents(), token)
    {
      if token in sessions && sessions[token].user in live {
        return Some(sessions[token]);
      }
      return None;
    }

    method TouchSession(id: nat, expiresAt: nat, now: nat) returns (changed: nat)
      modifies this
      ensures changed == if id in old(sessions) then 1 else 0
      ensures Contents() == Touched(old(Contents()), id, expiresAt, now)
    {
      if id !in sessions {
        return 0;
      }
      sessions := sessions[id := sessions[id].(lastSeenAt := now, expiresAt := expiresAt)];
      return 1;
    }

    method DeleteSessionByTokenHash(token: nat)
      modifies this
      ensures Contents() == Without(old(Contents()), {token})
    {
      sessions := sessions - {token};
    }

    method DeleteSessionForUser(id: nat, user: nat) returns (deleted: nat)
      modifies this
      ensures deleted == if id in old(sessions) && old(sessions)[id].user == user then 1 else 0
      ensures Contents() == if deleted == 1 then Without(old(Contents()), {id}) else old(Contents())
    {
      if id in sessions && sessions[id].user == user {
        sessions := sessions - {id};
        return 1;
      }
      return 0;
    }

    method DeleteOtherSessionsForUser(user: nat, current: nat) returns (deleted: nat)
      modifies this
      ensures deleted == |OthersOf(old(Contents()), user, current)|
      ensures Contents() == Without(old(Contents()), OthersOf(old(Contents()), user, current))
    {
      var others := set x | x in sessions && sessions[x].user == user && x != current;
      deleted := |others|;
      sessions := sessions - others;
    }
  }

  class SessionService {
    const store: SessionStore

    constructor (store: SessionStore)
      ensures this.store == store
    {
      this.store := store;
    }

    /** `now` is read before the row is written at `created`. */
    method Issue(id: nat, user: nat, now: nat, created: nat) returns (issued: bool)
      modifies store
      ensures issued <==> id !in old(store.sessions)
      ensures store.Contents() ==
              if issued
              then old(store.Contents()).(sessions :=
                     old(store.sessions)[id := Session(user, created, created, NewSessionExpiry(now))])
              else old(store.Contents())
    {
      issued := store.CreateSession(id, user, NewSessionExpiry(now), created);
    }

    method Authenticate(token: Option<nat>, now: nat, later: nat, written: bool) returns (user: Option<nat>)
      modifies store
      ensures user == Accepts(old(store.Contents()), token, now)
      ensures store.Contents() == AfterRequest(old(store.Contents()), token, now, later, written)
    {
      if token.None? {
        return None;
      }
      var row := store.GetSessionByTokenHash(token.value);
      if row.None? || IsExpired(row.value, now) {
        return None;
      }
      Renew(token.value, row.value, now, later, written);
      return Some(row.value.user);
    }

    /** A write that fails is logged, and the request goes on. */
    method Renew(id: nat, session: Session, now: nat, later: nat, written: bool)
      modifies store
      ensures store.Contents() ==
              if NeedsRenewal(session, now) && written
              then Touched(old(store.Contents()), id, RenewedExpiry(session, now), later)
              else old(store.Contents())
    {
      if !NeedsRenewal(session, now) {
        return;
      }
      if written {
        var _ := store.TouchSession(id, RenewedExpiry(session, now), later);
      }
    }

    method Revoke(token: Option<nat>)
      modifies store
      ensures store.Contents() ==
              if token.Some? then Without(old(store.Contents()), {token.value}) else old(store.Contents())
      ensures token.Some? ==> Lookup(store.Contents(), token.value).None?
    {
      if token.Some? {
        store.DeleteSessionByTokenHash(token.value);
      }
    }

    /** A session that is not there and one that is not the caller's are one answer. */
    method RevokeByID(user: nat, id: Option<nat>) returns (answer: Option<Error>)
      modifies store
      ensures answer == if id.Some? && id.value in old(store.sessions) && old(store.sessions)[id.value].user == user
                        then None else Some(SessionNotFound)
      ensures store.Contents() ==
              if answer.None? then Without(old(store.Contents()), {id.value}) else old(store.Contents())
    {
      if id.None? {
        return Some(SessionNotFound);
      }
      var deleted := store.DeleteSessionForUser(id.value, user);
      if deleted == 0 {
        return Some(SessionNotFound);
      }
      return None;
    }

    method RevokeOthers(user: nat, current: Option<nat>) returns (answer: Result<nat, Error>)
      modifies store
      ensures current.None? ==> answer == Failure(NotAnId) && store.Contents() == old(store.Contents())
      ensures current.Some? ==>
                var others := OthersOf(old(store.Contents()), user, current.value);
                answer == Success(|others|) && store.Contents() == Without(old(store.Contents()), others)
    {
      if current.None? {
        return Failure(NotAnId);
      }
      var deleted := store.DeleteOtherSessionsForUser(user, current.value);
      return Success(deleted);
    }
  }

  // ------------------------------------------------- requests one at a time

  /** A session after one request whose write succeeds. */
  function Used(s: Session, now: nat): Session {
    if !IsExpired(s, now) && NeedsRenewal(s, now)
    then s.(lastSeenAt := now, expiresAt := RenewedExpiry(s, now)) else s
  }

  function UsedAt(s: Session, times: seq<nat>): Session {
    if times == [] then s else Used(UsedAt(s, times[..|times| - 1]), times[|times| - 1])
  }

  /** How many of the requests wrote the row. */
  function Writes(s: Session, times: seq<nat>): nat {
    if times == [] then 0
    else
      var before := UsedAt(s, times[..|times| - 1]);
      Writes(s, times[..|times| - 1]) + if Used(before, times[|times| - 1]) != before then 1 else 0
  }

  function Min(a: nat, b: nat): nat {
    if a <= b then a else b
  }

  /** `Used` is what an undisturbed Authenticate does to the row. */
  lemma UsedIsAuthenticate(t: Tables, token: nat, now: nat)
    requires Lookup(t, token).Some?
    ensures AfterRequest(t, Some(token), now, now, true) ==
            t.(sessions := t.sessions[token := Used(t.sessions[token], now)])
  {
    assert t.sessions[token := t.sessions[token]] == t.sessions;
  }

  function AfterRequests(t: Tables, token: nat, times: seq<nat>): Tables {
    if times == [] then t
    else
      var now := times[|times| - 1];
      AfterRequest(AfterRequests(t, token, times[..|times| - 1]), Some(token), now, now, true)
  }

  /** Requests one at a time do to the row what the uses below do. */
  lemma {:induction false} RequestsAreUses(t: Tables, token: nat, times: seq<nat>)
    requires Lookup(t, token).Some?
    ensures AfterRequests(t, token, times) == t.(sessions := t.sessions[token := UsedAt(t.sessions[token], times)])
  {
    if times == [] {
      assert t.sessions[token := t.sessions[token]] == t.sessions;
    } else {
      var front, now := times[..|times| - 1], times[|times| - 1];
      RequestsAreUses(t, token, front);
      UserStays(t.sessions[token], front);
      var before := AfterRequests(t, token, front);
      UsedIsAuthenticate(before, token, now);
    }
  }

  lemma {:induction false} UserStays(s: Session, times: seq<nat>)
    ensures UsedAt(s, times).user == s.user
  {
    if times != [] {
      UserStays(s, times[..|times| - 1]);
    }
  }

  /** The deadline a run of uses leaves: never past the ceiling or 14 days from a
      use, and after an accepted use no more than an hour short of both. */
  lemma {:induction false} UsedDeadline(s: Session, times: seq<nat>)
    requires s.expiresAt <= s.createdAt + ABSOLUTE_WINDOW
    ensures UsedAt(s, times).createdAt == s.createdAt && UsedAt(s, times).user == s.user
    ensures s.expiresAt <= UsedAt(s, times).expiresAt <= s.createdAt + ABSOLUTE_WINDOW
    ensures times != [] && !IsExpired(UsedAt(s, times[..|times| - 1]), times[|times| - 1]) ==>
              UsedAt(s, times).expiresAt + RENEWAL_FLOOR
              >= Min(times[|times| - 1] + IDLE_WINDOW, s.createdAt + ABSOLUTE_WINDOW)
  {
    if times != [] {
      UsedDeadline(s, times[..|times| - 1]);
    }
  }

  /** Every write moves the deadline by more than an hour, under one ceiling. */
  lemma {:induction false} WritesMoveTheDeadline(s: Session, times: seq<nat>)
    requires s.expiresAt <= s.createdAt + ABSOLUTE_WINDOW
    ensures s.expiresAt + Writes(s, times) * (RENEWAL_FLOOR + 1) <= UsedAt(s, times).expiresAt
  {
    if times != [] {
      WritesMoveTheDeadline(s, times[..|times| - 1]);
      UsedDeadline(s, times[..|times| - 1]);
    }
  }

  /** How many writes fit under the ceiling, each moving the deadline an hour and
      a millisecond at least. */
  function MostWrites(s: Session): nat
    requires s.expiresAt <= s.createdAt + ABSOLUTE_WINDOW
  {
    (s.createdAt + ABSOLUTE_WINDOW - s.expiresAt) / (RENEWAL_FLOOR + 1)
  }

  lemma WritesAreBounded(s: Session, times: seq<nat>)
    requires s.expiresAt <= s.createdAt + ABSOLUTE_WINDOW
    ensures Writes(s, times) <= MostWrites(s)
  {
    WritesMoveTheDeadline(s, times);
    UsedDeadline(s, times);
    Quotient(Writes(s, times), s.createdAt + ABSOLUTE_WINDOW - s.expiresAt);
  }

  lemma Quotient(n: nat, room: nat)
    ensures n * (RENEWAL_FLOOR + 1) <= room <==> n <= room / (RENEWAL_FLOOR + 1)
  {
  }

  /** Uses an hour and a millisecond apart. */
  function Hourly(from: nat, n: nat): seq<nat> {
    seq(n, i requires 0 <= i < n => from + (i + 1) * (RENEWAL_FLOOR + 1))
  }

  /** The bound is reached: a session used just over hourly writes every time. */
  lemma {:induction false} HourlyUseWritesEveryTime(s: Session, n: nat)
    requires IDLE_WINDOW <= s.expiresAt <= s.createdAt + ABSOLUTE_WINDOW && n <= MostWrites(s)
    ensures var times := Hourly(s.expiresAt - IDLE_WINDOW, n);
            && Writes(s, times) == n && UsedAt(s, times).createdAt == s.createdAt
            && UsedAt(s, times).expiresAt == s.expiresAt + n * (RENEWAL_FLOOR + 1)
  {
    if n > 0 {
      hide Used, MostWrites;
      var from := s.expiresAt - IDLE_WINDOW;
      var times := Hourly(from, n);
      FitsUnder(s, n);
      HourlyPrefix(from, n);
      HourlyUseWritesEveryTime(s, n - 1);
      OneHourlyUse(UsedAt(s, times[..n - 1]), times[n - 1]);
    }
  }

  lemma FitsUnder(s: Session, n: nat)
    requires s.expiresAt <= s.createdAt + ABSOLUTE_WINDOW && 0 < n <= MostWrites(s)
    ensures n - 1 <= MostWrites(s) && s.expiresAt + n * (RENEWAL_FLOOR + 1) <= s.createdAt + ABSOLUTE_WINDOW
  {
    Quotient(n, s.createdAt + ABSOLUTE_WINDOW - s.expiresAt);
  }

  lemma HourlyPrefix(from: nat, n: nat)
    requires n > 0
    ensures Hourly(from, n)[..n - 1] == Hourly(from, n - 1)
    ensures Hourly(from, n)[n - 1] == from + (n - 1) * (RENEWAL_FLOOR + 1) + RENEWAL_FLOOR + 1
  {
  }

  /** A use an hour and a millisecond after the one that set the deadline writes. */
  lemma OneHourlyUse(s: Session, now: nat)
    requires now + IDLE_WINDOW == s.expiresAt + RENEWAL_FLOOR + 1 <= s.createdAt + ABSOLUTE_WINDOW
    ensures Used(s, now) != s && Used(s, now).createdAt == s.createdAt
    ensures Used(s, now).expiresAt == s.expiresAt + RENEWAL_FLOOR + 1
  {
  }

  /** A session costs at most 1,823 renewal writes in its whole life exactly when
      its row was created within 1,824 milliseconds of the clock read that set its
      first deadline. */
  lemma {:induction false} RenewalWritesAreBounded(s: Session)
    requires IDLE_WINDOW <= s.expiresAt <= NewSessionExpiry(s.createdAt)
    ensures (forall times :: Writes(s, times) <= 1823) <==> s.createdAt + IDLE_WINDOW < s.expiresAt + 1824
  {
    hide Writes, MostWrites;
    MostOfIssued(s);
    if s.createdAt + IDLE_WINDOW < s.expiresAt + 1824 {
      forall times ensures Writes(s, times) <= 1823 {
        WritesAreBounded(s, times);
      }
    } else {
      HourlyUseWritesEveryTime(s, 1824);
      assert Writes(s, Hourly(s.expiresAt - IDLE_WINDOW, 1824)) == 1824;
    }
  }

  lemma MostOfIssued(s: Session)
    requires s.expiresAt <= NewSessionExpiry(s.createdAt)
    ensures MostWrites(s) >= 1823
    ensures MostWrites(s) <= 1823 <==> s.createdAt + IDLE_WINDOW < s.expiresAt + 1824
  {
  }

  function Previous(from: nat, times: seq<nat>, i: nat): nat
    requires i < |times|
  {
    if i == 0 then from else times[i - 1]
  }

  /** Gaps between uses an hour below fourteen days. */
  predicate Regular(from: nat, times: seq<nat>) {
    forall i :: 0 <= i < |times| ==>
      Previous(from, times, i) <= times[i] < Previous(from, times, i) + 1_206_000_000
  }

  /** A session used regularly answers until an hour before its ceiling, counting
      from its issue or from any moment the first deadline leaves room for. */
  lemma {:induction false} RegularUseLasts(s: Session, from: nat, times: seq<nat>)
    requires s.expiresAt <= s.createdAt + 7_776_000_000 && from + 1_206_000_000 <= s.expiresAt
    requires times != [] && Regular(from, times)
    requires times[|times| - 1] < s.createdAt + 7_772_400_000
    ensures !IsExpired(UsedAt(s, times[..|times| - 1]), times[|times| - 1])
  {
    var front, last := times[..|times| - 1], times[|times| - 1];
    UsedDeadline(s, front);
    assert Previous(from, times, |front|) <= last < Previous(from, times, |front|) + 1_206_000_000;
    if front != [] {
      forall i | 0 <= i < |front|
        ensures Previous(from, front, i) <= front[i] < Previous(from, front, i) + 1_206_000_000
      {
        assert Previous(from, times, i) == Previous(from, front, i);
      }
      RegularUseLasts(s, from, front);
    }
  }

  /** No use is accepted at the ceiling or after it, however regular. */
  lemma UseEnds(s: Session, times: seq<nat>, now: nat)
    requires s.expiresAt <= s.createdAt + 7_776_000_000
    requires s.createdAt + 7_776_000_000 <= now
    ensures IsExpired(UsedAt(s, times), now)
  {
    UsedDeadline(s, times);
  }
}
