/** The rows behind links and accounts, the SQL statements that change them, and
    the four transaction bodies, each run as one step.

    A body reads two clocks: `began`, the transaction's now() in SQL, and `read`,
    the service's own clock inside the body. A body that fails is rolled back. */
module IdentityTables {
  import opened Results
  import Decimal
  import Invitations

  const INVITATION_WINDOW: nat := 7 * 24 * 3_600_000
  const RESET_WINDOW: nat := 3_600_000

  /** Token digests are unique, so one number stands for a row and its link.
      `serial` is bookkeeping: how many rows the table had when this one came. */
  datatype Invitation =
    Invitation(email: string, role: string, expiresAt: nat, acceptedAt: Option<nat>, serial: nat)

  datatype Reset = Reset(user: nat, expiresAt: nat, usedAt: Option<nat>, serial: nat)

  datatype User = User(email: string, name: string, hash: string, role: string, live: bool)

  /** A session is the account it signs in. */
  datatype Tables = Tables(invitations: map<nat, Invitation>, resets: map<nat, Reset>,
                           users: map<nat, User>, sessions: map<nat, nat>)

  datatype Error = EmailTaken | InvitationNotUsable | ResetNotUsable | Conflict

  type Outcome = Result<Tables, Error>

  predicate SameAddress(a: string, b: string) {
    Invitations.Lower(a) == Invitations.Lower(b)
  }

  predicate InvitationUsable(row: Invitation, now: nat) {
    row.acceptedAt.None? && now < row.expiresAt
  }

  predicate ResetUsable(row: Reset, now: nat) {
    row.usedAt.None? && now < row.expiresAt
  }

  predicate Owns(user: User, email: string) {
    user.live && SameAddress(user.email, email)
  }

  predicate Taken(users: map<nat, User>, email: string) {
    exists u :: u in users && Owns(users[u], email)
  }

  /** The unique index on lower(email) of live accounts. */
  ghost predicate UniqueAddresses(users: map<nat, User>) {
    forall u, v :: u in users && v in users && users[v].live && Owns(users[u], users[v].email) ==> u == v
  }

  /** The live account behind an address. */
  ghost function Owner(users: map<nat, User>, email: string): Option<nat> {
    if Taken(users, email) then
      var u :| u in users && Owns(users[u], email);
      Some(u)
    else None
  }

  lemma OwnerIsUnique(users: map<nat, User>, email: string, u: nat)
    requires UniqueAddresses(users) && u in users && Owns(users[u], email)
    ensures Owner(users, email) == Some(u)
  {
    var v := Owner(users, email).value;
    assert Owns(users[u], users[v].email);
  }

  // ------------------------------------------------- what statements write

  /** UPDATE invitations SET expires_at = now() of the open rows of an address. */
  function SupersedeInvitations(rows: map<nat, Invitation>, email: string, now: nat): map<nat, Invitation> {
    map id | id in rows ::
      if SameAddress(rows[id].email, email) && InvitationUsable(rows[id], now)
      then rows[id].(expiresAt := now) else rows[id]
  }

  function SupersedeResets(rows: map<nat, Reset>, user: nat, now: nat): map<nat, Reset> {
    map id | id in rows ::
      if rows[id].user == user && ResetUsable(rows[id], now) then rows[id].(expiresAt := now) else rows[id]
  }

  /** DELETE FROM sessions WHERE user_id = $1. */
  function SignedOut(sessions: map<nat, nat>, user: nat): map<nat, nat> {
    map x | x in sessions && sessions[x] != user :: sessions[x]
  }

  function MaskedAddress(user: nat): string {
    "deleted+" + Decimal.Dec(user) + "@invalid"
  }

  // ---------------------------------------------------------------- bodies

  function CreateBody(s: Tables, id: nat, email: string, role: string, began: nat, read: nat): Outcome {
    if Taken(s.users, email) then Failure(EmailTaken)
    else if id in s.invitations then Failure(Conflict)
    else
      var rows := SupersedeInvitations(s.invitations, email, began);
      Success(s.(invitations := rows[id := Invitation(email, role, read + INVITATION_WINDOW, None, |s.invitations|)]))
  }

  function AcceptBody(s: Tables, id: nat, user: nat, name: string, hash: string, began: nat, read: nat): Outcome {
    if id !in s.invitations || !InvitationUsable(s.invitations[id], read) || !InvitationUsable(s.invitations[id], began)
    then Failure(InvitationNotUsable)
    else
      var row := s.invitations[id];
      if user in s.users || Taken(s.users, row.email) then Failure(EmailTaken)
      else Success(s.(invitations := s.invitations[id := row.(acceptedAt := Some(began))],
                      users := s.users[user := User(row.email, name, hash, row.role, true)]))
  }

  ghost function RequestBody(s: Tables, id: nat, email: string, began: nat, read: nat): Outcome {
    match Owner(s.users, email)
    case None => Success(s)
    case Some(user) =>
      if id in s.resets then Failure(Conflict)
      else
        var rows := SupersedeResets(s.resets, user, began);
        Success(s.(resets := rows[id := Reset(user, read + RESET_WINDOW, None, |s.resets|)]))
  }

  function ConfirmBody(s: Tables, id: nat, hash: string, began: nat, read: nat): Outcome {
    if id !in s.resets || !ResetUsable(s.resets[id], read) || !ResetUsable(s.resets[id], began)
    then Failure(ResetNotUsable)
    else
      var row := s.resets[id];
      if row.user !in s.users || !s.users[row.user].live then Failure(ResetNotUsable)
      else Success(s.(resets := s.resets[id := row.(usedAt := Some(began))],
                      users := s.users[row.user := s.users[row.user].(hash := hash)],
                      sessions := SignedOut(s.sessions, row.user)))
  }

  function Mask(s: Tables, user: nat): Tables {
    if user in s.users && s.users[user].live
    then s.(users := s.users[user := s.users[user].(email := MaskedAddress(user),
                                                    name := "Pengguna dihapus", live := false)])
    else s
  }

  /** A transaction commits on success and leaves nothing behind otherwise. */
  function InTx(s: Tables, outcome: Outcome): Tables {
    if outcome.Success? then outcome.value else s
  }

  // -------------------------------------------------------------- statements

  class Database {
    var invitations: map<nat, Invitation>
    var resets: map<nat, Reset>
    var users: map<nat, User>
    var sessions: map<nat, nat>

    constructor ()
      ensures Contents() == Tables(map[], map[], map[], map[])
    {
      invitations, resets, users, sessions := map[], map[], map[], map[];
    }

    function Contents(): Tables
      reads this
    {
      Tables(invitations, resets, users, sessions)
    }

    method Rollback(before: Tables)
      modifies this
      ensures Contents() == before
    {
      invitations, resets, users, sessions := before.invitations, before.resets, before.users, before.sessions;
    }

    method GetUserByEmail(email: string) returns (found: Option<nat>)
      requires UniqueAddresses(users)
      ensures found == Owner(users, email)
      ensures found.Some? <==> Taken(users, email)
    {
      if u :| u in users && Owns(users[u], email) {
        OwnerIsUnique(users, email, u);
        found := Some(u);
      } else {
        found := None;
      }
    }

    method ExpireOpenInvitationsForEmail(email: string, now: nat)
      modifies this
      ensures Contents() == old(Contents()).(invitations := SupersedeInvitations(old(invitations), email, now))
    {
      invitations := map id | id in invitations ::
        if SameAddress(invitations[id].email, email) && InvitationUsable(invitations[id], now)
        then invitations[id].(expiresAt := now) else invitations[id];
    }

    method CreateInvitation(id: nat, email: string, role: string, expiresAt: nat) returns (created: bool)
      modifies this
      ensures created <==> id !in old(invitations)
      ensures Contents() ==
              if created
              then old(Contents()).(invitations :=
                     old(invitations)[id := Invitation(email, role, expiresAt, None, |old(invitations)|)])
              else old(Contents())
    {
      created := id !in invitations;
      if created {
        invitations := invitations[id := Invitation(email, role, expiresAt, None, |invitations|)];
      }
    }

    method AcceptInvitation(id: nat, now: nat) returns (stamped: nat)
      modifies this
      ensures stamped == if id in old(invitations) && InvitationUsable(old(invitations)[id], now) then 1 else 0
      ensures Contents() ==
              if stamped == 1
              then old(Contents()).(invitations :=
                     old(invitations)[id := old(invitations)[id].(acceptedAt := Some(now))])
              else old(Contents())
    {
      if id in invitations && InvitationUsable(invitations[id], now) {
        invitations := invitations[id := invitations[id].(acceptedAt := Some(now))];
        return 1;
      }
      return 0;
    }

    method CreateUser(id: nat, email: string, name: string, hash: string, role: string) returns (created: bool)
      modifies this
      ensures created <==> id !in old(users) && !Taken(old(users), email)
      ensures Contents() ==
              if created then old(Contents()).(users := old(users)[id := User(email, name, hash, role, true)])
              else old(Contents())
    {
      created := id !in users && !Taken(users, email);
      if created {
        users := users[id := User(email, name, hash, role, true)];
      }
    }

    method ExpireOpenPasswordResetsForUser(user: nat, now: nat)
      modifies this
      ensures Contents() == old(Contents()).(resets := SupersedeResets(old(resets), user, now))
    {
      resets := map id | id in resets ::
        if resets[id].user == user && ResetUsable(resets[id], now) then resets[id].(expiresAt := now) else resets[id];
    }

    method CreatePasswordReset(id: nat, user: nat, expiresAt: nat) returns (created: bool)
      modifies this
      ensures created <==> id !in old(resets)
      ensures Contents() ==
              if created
              then old(Contents()).(resets := old(resets)[id := Reset(user, expiresAt, None, |old(resets)|)])
              else old(Contents())
    {
      created := id !in resets;
      if created {
        resets := resets[id := Reset(user, expiresAt, None, |resets|)];
      }
    }

    method UsePasswordReset(id: nat, now: nat) returns (stamped: nat)
      modifies this
      ensures stamped == if id in old(resets) && ResetUsable(old(resets)[id], now) then 1 else 0
      ensures Contents() ==
              if stamped == 1 then old(Contents()).(resets := old(resets)[id := old(resets)[id].(usedAt := Some(now))])
              else old(Contents())
    {
      if id in resets && ResetUsable(resets[id], now) {
        resets := resets[id := resets[id].(usedAt := Some(now))];
        return 1;
      }
      return 0;
    }

    method SetUserPasswordHash(id: nat, hash: string) returns (found: bool)
      modifies this
      ensures found <==> id in old(users) && old(users)[id].live
      ensures Contents() ==
              if found then old(Contents()).(users := old(users)[id := old(users)[id].(hash := hash)])
              else old(Contents())
    {
      found := id in users && users[id].live;
      if found {
        users := users[id := users[id].(hash := hash)];
      }
    }

    /** Writes only over the hash it was told to expect. */
    method UpdateUserPasswordHash(id: nat, newHash: string, currentHash: string) returns (changed: nat)
      modifies this
      ensures changed == if id in old(users) && old(users)[id].live && old(users)[id].hash == currentHash then 1 else 0
      ensures Contents() ==
              if changed == 1 then old(Contents()).(users := old(users)[id := old(users)[id].(hash := newHash)])
              else old(Contents())
    {
      if id in users && users[id].live && users[id].hash == currentHash {
        users := users[id := users[id].(hash := newHash)];
        return 1;
      }
      return 0;
    }

    method DeleteAllSessionsForUser(user: nat)
      modifies this
      ensures Contents() == old(Contents()).(sessions := SignedOut(old(sessions), user))
    {
      sessions := map x | x in sessions && sessions[x] != user :: sessions[x];
    }
  }

  // ------------------------------------------------------------ the services

  class Identity {
    const db: Database

    constructor (db: Database)
      ensures this.db == db
    {
      this.db := db;
    }

    /** Records an invitation, superseding the open ones of the address. */
    method Create(id: nat, email: string, role: string, began: nat, read: nat) returns (answer: Option<Error>)
      requires UniqueAddresses(db.users)
      modifies db
      ensures var body := CreateBody(old(db.Contents()), id, email, role, began, read);
              && db.Contents() == InTx(old(db.Contents()), body)
              && answer == if body.Success? then None else Some(body.error)
    {
      var before := db.Contents();
      var account := db.GetUserByEmail(email);
      if account.Some? {
        db.Rollback(before);
        return Some(EmailTaken);
      }
      db.ExpireOpenInvitationsForEmail(email, began);
      assert |db.invitations| == |before.invitations| by {
        assert db.invitations.Keys == before.invitations.Keys;
        assert |db.invitations.Keys| == |before.invitations.Keys|;
      }
      var created := db.CreateInvitation(id, email, role, read + INVITATION_WINDOW);
      if !created {
        db.Rollback(before);
        return Some(Conflict);
      }
      return None;
    }

    /** Turns a link into an account, once. */
    method Accept(token: nat, user: nat, name: string, hash: string, began: nat, read: nat)
      returns (answer: Option<Error>)
      modifies db
      ensures var body := AcceptBody(old(db.Contents()), token, user, name, hash, began, read);
              && db.Contents() == InTx(old(db.Contents()), body)
              && answer == if body.Success? then None else Some(body.error)
    {
      var before := db.Contents();
      if token !in db.invitations {
        db.Rollback(before);
        return Some(InvitationNotUsable);
      }
      var row := db.invitations[token];
      if !InvitationUsable(row, read) {
        db.Rollback(before);
        return Some(InvitationNotUsable);
      }
      var stamped := db.AcceptInvitation(token, began);
      if stamped == 0 {
        db.Rollback(before);
        return Some(InvitationNotUsable);
      }
      var created := db.CreateUser(user, row.email, name, hash, row.role);
      if !created {
        db.Rollback(before);
        return Some(EmailTaken);
      }
      return None;
    }

    /** Records a reset for the live account of an address, superseding its open ones. */
    method Request(id: nat, email: string, began: nat, read: nat) returns (answer: Option<Error>)
      requires UniqueAddresses(db.users)
      modifies db
      ensures var body := RequestBody(old(db.Contents()), id, email, began, read);
              && db.Contents() == InTx(old(db.Contents()), body)
              && answer == if body.Success? then None else Some(body.error)
    {
      var before := db.Contents();
      var account := db.GetUserByEmail(email);
      if account.None? {
        return None;
      }
      db.ExpireOpenPasswordResetsForUser(account.value, began);
      assert |db.resets| == |before.resets| by {
        assert db.resets.Keys == before.resets.Keys;
        assert |db.resets.Keys| == |before.resets.Keys|;
      }
      var created := db.CreatePasswordReset(id, account.value, read + RESET_WINDOW);
      if !created {
        db.Rollback(before);
        return Some(Conflict);
      }
      return None;
    }

    /** Replaces the password behind a link, once, and signs every device out. */
    method Confirm(token: nat, hash: string, began: nat, read: nat) returns (answer: Option<Error>)
      modifies db
      ensures var body := ConfirmBody(old(db.Contents()), token, hash, began, read);
              && db.Contents() == InTx(old(db.Contents()), body)
              && answer == if body.Success? then None else Some(body.error)
    {
      var before := db.Contents();
      if token !in db.resets {
        db.Rollback(before);
        return Some(ResetNotUsable);
      }
      var row := db.resets[token];
      if !ResetUsable(row, read) {
        db.Rollback(before);
        return Some(ResetNotUsable);
      }
      var stamped := db.UsePasswordReset(token, began);
      if stamped == 0 {
        db.Rollback(before);
        return Some(ResetNotUsable);
      }
      var found := db.SetUserPasswordHash(row.user, hash);
      if !found {
        db.Rollback(before);
        return Some(ResetNotUsable);
      }
      db.DeleteAllSessionsForUser(row.user);
      return None;
    }
  }
}
