/** The statements that race are those of the bodies: run one after another they do
    to invitations what Create does, and to resets what Request does. */
module LinkBodies {
  import opened Results
  import opened IdentityTables
  import Invitations
  import opened LinkRaces

  function InvitationLink(row: Invitation): Link {
    Link(Address(Invitations.Lower(row.email)), row.expiresAt, row.acceptedAt.Some?, row.serial)
  }

  function InvitationLinks(rows: map<nat, Invitation>): map<nat, Link> {
    map id | id in rows :: InvitationLink(rows[id])
  }

  function ResetLink(row: Reset): Link {
    Link(Account(row.user), row.expiresAt, row.usedAt.Some?, row.serial)
  }

  function ResetLinks(rows: map<nat, Reset>): map<nat, Link> {
    map id | id in rows :: ResetLink(rows[id])
  }

  lemma AsManyInvitations(rows: map<nat, Invitation>)
    ensures |InvitationLinks(rows)| == |rows|
  {
    assert InvitationLinks(rows).Keys == rows.Keys;
    assert |InvitationLinks(rows).Keys| == |rows.Keys|;
  }

  lemma AsManyResets(rows: map<nat, Reset>)
    ensures |ResetLinks(rows)| == |rows|
  {
    assert ResetLinks(rows).Keys == rows.Keys;
    assert |ResetLinks(rows).Keys| == |rows.Keys|;
  }

  /** Uninterrupted, the statements are Create's body run as one step. */
  lemma {:induction false} UninterruptedIsCreate(s: State, t: Tables, tx: nat, email: string, role: string,
                                                 began: nat, read: nat)
    requires tx !in s.txs && tx !in s.rows && s.clock <= began <= read && s.rows == InvitationLinks(t.invitations)
    requires forall other, id :: other in s.txs && id in s.rows ==> !Holds(s.txs[other], id)
    requires Taken(t.users, email) <==> Address(Invitations.Lower(email)) in s.barred
    ensures Uninterrupted(s, tx, Address(Invitations.Lower(email)), began, read, INVITATION_WINDOW).rows ==
            InvitationLinks(InTx(t, CreateBody(t, tx, email, role, began, read)).invitations)
  {
    hide Uninterrupted, Issued, InvitationLinks, CreateBody, Invitations.Lower, Taken, Holds;
    UninterruptedIssues(s, tx, Address(Invitations.Lower(email)), began, read, INVITATION_WINDOW);
    CreateIssues(t, s.barred, tx, email, role, began, read);
  }

  lemma CreateIssues(t: Tables, barred: set<Holder>, tx: nat, email: string, role: string, began: nat, read: nat)
    requires tx !in InvitationLinks(t.invitations)
    requires Taken(t.users, email) <==> Address(Invitations.Lower(email)) in barred
    ensures InvitationLinks(InTx(t, CreateBody(t, tx, email, role, began, read)).invitations) ==
            Issued(InvitationLinks(t.invitations), barred, tx, Address(Invitations.Lower(email)), began,
                   read + INVITATION_WINDOW)
  {
    hide Invitations.Lower, Taken, InvitationUsable, Usable, InvitationLink;
    AsManyInvitations(t.invitations);
    forall id | id in t.invitations ensures SupersedeOne(t.invitations[id], email, began) {
      SupersedesOne(t.invitations[id], email, began);
    }
    NewInvitation(email, role, read + INVITATION_WINDOW, |t.invitations|);
  }

  /** A row is ended as an invitation exactly when its link is. */
  predicate SupersedeOne(row: Invitation, email: string, began: nat) {
    var link := InvitationLink(row);
    InvitationLink(if SameAddress(row.email, email) && InvitationUsable(row, began)
                   then row.(expiresAt := began) else row)
    == if link.holder == Address(Invitations.Lower(email)) && Usable(link, began)
          then link.(expiresAt := began) else link
  }

  lemma SupersedesOne(row: Invitation, email: string, began: nat)
    ensures SupersedeOne(row, email, began)
  {
    hide Invitations.Lower;
  }

  lemma NewInvitation(email: string, role: string, expiresAt: nat, serial: nat)
    ensures InvitationLink(Invitation(email, role, expiresAt, None, serial))
            == Link(Address(Invitations.Lower(email)), expiresAt, false, serial)
  {
    hide Invitations.Lower;
  }

  /** And they are Request's body, of the live account behind the address. */
  lemma {:induction false} UninterruptedIsRequest(s: State, t: Tables, tx: nat, email: string, user: nat,
                                                  began: nat, read: nat)
    requires tx !in s.txs && tx !in s.rows && s.clock <= began <= read && s.rows == ResetLinks(t.resets)
    requires forall other, id :: other in s.txs && id in s.rows ==> !Holds(s.txs[other], id)
    requires if Account(user) in s.barred then Owner(t.users, email).None? else Owner(t.users, email) == Some(user)
    ensures Uninterrupted(s, tx, Account(user), began, read, RESET_WINDOW).rows ==
            ResetLinks(InTx(t, RequestBody(t, tx, email, began, read)).resets)
  {
    hide Uninterrupted, Issued, ResetLinks, RequestBody, Owner, Holds;
    UninterruptedIssues(s, tx, Account(user), began, read, RESET_WINDOW);
    RequestIssues(t, s.barred, tx, email, user, began, read);
  }

  lemma RequestIssues(t: Tables, barred: set<Holder>, tx: nat, email: string, user: nat, began: nat, read: nat)
    requires tx !in ResetLinks(t.resets)
    requires if Account(user) in barred then Owner(t.users, email).None? else Owner(t.users, email) == Some(user)
    ensures ResetLinks(InTx(t, RequestBody(t, tx, email, began, read)).resets) ==
            Issued(ResetLinks(t.resets), barred, tx, Account(user), began, read + RESET_WINDOW)
  {
    hide Owner;
    AsManyResets(t.resets);
  }

  /** Their promises fail alike: an address is left with two usable invitations and
      an account with two usable resets, for the whole of their windows. */
  lemma {:induction false} BothPromisesRace(lower: string, user: nat, now: nat)
    ensures now < INVITATION_WINDOW ==>
              var rows := Run(Race(Address(lower), INVITATION_WINDOW)).rows;
              rows.Keys == {1, 2} && Usable(rows[1], now) && Usable(rows[2], now)
    ensures now < RESET_WINDOW ==>
              var rows := Run(Race(Account(user), RESET_WINDOW)).rows;
              rows.Keys == {1, 2} && Usable(rows[1], now) && Usable(rows[2], now)
  {
    hide Run, Usable;
    if now < INVITATION_WINDOW {
      RaceLeavesTwo(Address(lower), INVITATION_WINDOW, now);
    }
    if now < RESET_WINDOW {
      RaceLeavesTwo(Account(user), RESET_WINDOW, now);
    }
  }
}
