/** When following a link works: from its issue until its window is over or it is
    ended, and what it then does. Bodies run as one step, as in Supersession. */
module LinkLifetimes {
  import opened Results
  import Decimal
  import opened IdentityTables
  import opened Supersession

  // -------------------------------------------------------------- one answer

  /** A confirmation succeeds exactly when its reset is open, unspent and of a live
      account; in every other case it gives one answer and changes nothing. */
  lemma UsableResetsConfirm(s: Tables, step: Step)
    requires step.event.Confirm? && step.began <= step.read
    ensures var id := step.event.token;
            Body(s, step).Success? <==>
            && id in s.resets && s.resets[id].usedAt == None && step.read < s.resets[id].expiresAt
            && s.resets[id].user in s.users && s.users[s.resets[id].user].live
    ensures Body(s, step).Failure? ==> Body(s, step) == Failure(ResetNotUsable) && Apply(s, step) == s
  {
    hide SignedOut;
  }

  /** Asking gives the same answer whether or not the address has an account; it has
      an effect only for a live one, which then has one open reset more. */
  lemma AskingRevealsNothing(s: Tables, step: Step)
    requires step.event.Ask? && step.event.id !in s.resets
    ensures Body(s, step).Success?
    ensures !Taken(s.users, step.event.email) ==> Apply(s, step) == s
    ensures Taken(s.users, step.event.email) ==>
              && Owner(s.users, step.event.email).Some?
              && var user, t := Owner(s.users, step.event.email).value, Apply(s, step);
              && user in s.users && Owns(s.users[user], step.event.email)
              && step.event.id in t.resets && t.resets.Keys == s.resets.Keys + {step.event.id}
              && t.resets[step.event.id] == Reset(user, step.read + RESET_WINDOW, None, |s.resets|)
              && t == s.(resets := t.resets)
  {
    hide SameAddress, ResetUsable;
  }

  /** An invitation is issued exactly for an address without an account, and holds
      the address and role it was issued for, for seven days. */
  lemma InvitingIssues(s: Tables, step: Step)
    requires step.event.Invite? && step.event.id !in s.invitations
    ensures Body(s, step).Success? <==> !Taken(s.users, step.event.email)
    ensures Body(s, step).Failure? ==> Body(s, step) == Failure(EmailTaken) && Apply(s, step) == s
    ensures Body(s, step).Success? ==>
              && var e, t := step.event, Apply(s, step);
              && e.id in t.invitations && t.invitations.Keys == s.invitations.Keys + {e.id}
              && t.invitations[e.id]
                 == Invitation(e.email, e.role, step.read + INVITATION_WINDOW, None, |s.invitations|)
              && t == s.(invitations := t.invitations)
  {
    var e := step.event;
    assert Body(s, step) == CreateBody(s, e.id, e.email, e.role, step.began, step.read);
    hide SupersedeInvitations, Taken, CreateBody, Body;
    NewRow(s, e.id, e.email, e.role, step.began, step.read);
  }

  lemma NewRow(s: Tables, id: nat, email: string, role: string, began: nat, read: nat)
    requires id !in s.invitations
    ensures var body := CreateBody(s, id, email, role, began, read);
            if Taken(s.users, email) then body == Failure(EmailTaken)
            else
              && body.Success?
              && IsAdded(s, body.value, id, Invitation(email, role, read + INVITATION_WINDOW, None, |s.invitations|))
  {
    hide SupersedeInvitations, Taken, IsAdded;
    var rows := SupersedeInvitations(s.invitations, email, began);
    SameKeys(s.invitations, email, began);
    RowIsAdded(s, rows, id, Invitation(email, role, read + INVITATION_WINDOW, None, |s.invitations|));
  }

  /** One invitation more, and no other table differs. */
  predicate IsAdded(s: Tables, t: Tables, id: nat, row: Invitation) {
    && id in t.invitations && t.invitations[id] == row && t.invitations.Keys == s.invitations.Keys + {id}
    && t == s.(invitations := t.invitations)
  }

  lemma RowIsAdded(s: Tables, rows: map<nat, Invitation>, id: nat, row: Invitation)
    requires rows.Keys == s.invitations.Keys
    ensures IsAdded(s, s.(invitations := rows[id := row]), id, row)
  {
  }

  lemma SameKeys(rows: map<nat, Invitation>, email: string, now: nat)
    ensures SupersedeInvitations(rows, email, now).Keys == rows.Keys
  {
  }

  /** The three answers to following an invitation, whatever the tables hold. Only a
      link that is open gets as far as the account, and only an account refused gets
      the answer that its address is taken. */
  lemma FollowingHasThreeAnswers(s: Tables, step: Step)
    requires step.event.Redeem? && step.began <= step.read
    ensures var e, answer := step.event, Body(s, step);
            if e.token !in s.invitations || s.invitations[e.token].acceptedAt.Some?
               || s.invitations[e.token].expiresAt <= step.read
            then answer == Failure(InvitationNotUsable)
            else if e.user in s.users || Taken(s.users, s.invitations[e.token].email)
            then answer == Failure(EmailTaken)
            else answer.Success?
    ensures Body(s, step).Failure? ==> Apply(s, step) == s
  {
    hide SameAddress;
  }

  /** Masking an account replaces its address by one of its own and frees the old
      one: nobody owns it until it is registered again. */
  lemma MaskingFreesTheAddress(s: Tables, u: nat, v: nat)
    requires UniqueAddresses(s.users) && u in s.users && s.users[u].live
    ensures var t := Mask(s, u);
            && t == s.(users := s.users[u := User("deleted+" + Decimal.Dec(u) + "@invalid", "Pengguna dihapus",
                                                  s.users[u].hash, s.users[u].role, false)])
            && !Taken(t.users, s.users[u].email) && Mask(t, u) == t
            && (v in t.users && v != u && t.users[v].email == MaskedAddress(v) ==> t.users[v].email != t.users[u].email)
  {
    hide SameAddress, Decimal.Dec;
    var a, b := "deleted+" + Decimal.Dec(u) + "@invalid", "deleted+" + Decimal.Dec(v) + "@invalid";
    if a == b {
      assert a[8..|a| - 8] == Decimal.Dec(u) && b[8..|b| - 8] == Decimal.Dec(v);
      Decimal.DecIsInjective(u, v);
    }
  }

  // ---------------------------------------------------------- over a run: resets

  /** A step after which a reset no longer works: its account asks again or is
      masked, or the reset is spent. */
  ghost predicate EndsReset(s: Tables, step: Step, id: nat, user: nat) {
    match step.event
    case Ask(_, email) => Owner(s.users, email) == Some(user) && Body(s, step).Success?
    case MaskUser(masked) => masked == user
    case Confirm(token, _) => token == id && Body(s, step).Success?
    case _ => false
  }

  ghost predicate ResetEnded(s: Tables, steps: seq<Step>, id: nat, user: nat) {
    exists i :: 0 <= i < |steps| && EndsReset(Run(s, steps[..i]), steps[i], id, user)
  }

  predicate ResetLives(s: Tables, id: nat, row: Reset) {
    id in s.resets && s.resets[id] == row && row.user in s.users && s.users[row.user].live
  }

  predicate ResetIsDead(s: Tables, id: nat, user: nat, now: nat) {
    || (id in s.resets && (s.resets[id].usedAt.Some? || s.resets[id].expiresAt <= now))
    || (id in s.resets && s.resets[id].user == user && user in s.users && !s.users[user].live)
  }

  lemma AskingLetsLive(s: Tables, step: Step, id: nat, row: Reset)
    requires step.event.Ask? && ResetLives(s, id, row) && row.usedAt.None?
    ensures EndsReset(s, step, id, row.user) ==> ResetIsDead(Apply(s, step), id, row.user, step.began)
    ensures !EndsReset(s, step, id, row.user) ==> ResetLives(Apply(s, step), id, row)
  {
    hide Owner, Taken;
    if Owner(s.users, step.event.email).Some? {
      SupersedingLeavesNoReset(s.resets, Owner(s.users, step.event.email).value, step.began);
    }
  }

  lemma StepLetsLive(s: Tables, step: Step, id: nat, row: Reset)
    requires ResetLives(s, id, row) && row.usedAt.None?
    ensures EndsReset(s, step, id, row.user) ==> ResetIsDead(Apply(s, step), id, row.user, step.began)
    ensures !EndsReset(s, step, id, row.user) ==> ResetLives(Apply(s, step), id, row)
  {
    if step.event.Ask? {
      AskingLetsLive(s, step, id, row);
    } else {
      hide Owner, Taken, SignedOut, SameAddress, SupersedeInvitations;
    }
  }

  lemma DeadStaysDead(s: Tables, step: Step, id: nat, user: nat, now: nat)
    requires ResetIsDead(s, id, user, now)
    ensures ResetIsDead(Apply(s, step), id, user, now)
  {
    StepOnlyAges(s, step);
    MaskedStaysMasked(s, step, user);
    hide Apply;
  }

  lemma MaskedStaysMasked(s: Tables, step: Step, user: nat)
    ensures user in s.users && !s.users[user].live ==>
              user in Apply(s, step).users && !Apply(s, step).users[user].live
  {
    hide Owner, Taken, SignedOut, SameAddress, SupersedeInvitations, SupersedeResets;
  }

  lemma {:induction false} ResetLivesUntilEnded(s: Tables, start: nat, steps: seq<Step>, id: nat, row: Reset)
    requires ResetLives(s, id, row) && row.usedAt.None? && Timed(start, steps)
    ensures ResetEnded(s, steps, id, row.user) ==> ResetIsDead(Run(s, steps), id, row.user, Clock(start, steps))
    ensures !ResetEnded(s, steps, id, row.user) ==> ResetLives(Run(s, steps), id, row)
  {
    if steps != [] {
      hide Apply, Timed, ResetLives, ResetIsDead, EndsReset;
      var n := |steps| - 1;
      var front, last := steps[..n], steps[n];
      TimedPrefix(start, steps);
      ResetLivesUntilEnded(s, start, front, id, row);
      PrefixEnds(s, steps, id, row.user);
      if ResetEnded(s, front, id, row.user) {
        DeadStaysDead(Run(s, front), last, id, row.user, Clock(start, front));
        DeadLater(Run(s, steps), id, row.user, Clock(start, front), Clock(start, steps));
      } else {
        StepLetsLive(Run(s, front), last, id, row);
        if EndsReset(Run(s, front), last, id, row.user) {
          DeadLater(Run(s, steps), id, row.user, last.began, Clock(start, steps));
        }
      }
    }
  }

  lemma DeadLater(s: Tables, id: nat, user: nat, now: nat, later: nat)
    requires ResetIsDead(s, id, user, now) && now <= later
    ensures ResetIsDead(s, id, user, later)
  {
  }

  lemma PrefixEnds(s: Tables, steps: seq<Step>, id: nat, user: nat)
    requires steps != []
    ensures var n := |steps| - 1;
            ResetEnded(s, steps, id, user) <==>
            ResetEnded(s, steps[..n], id, user) || EndsReset(Run(s, steps[..n]), steps[n], id, user)
  {
    hide EndsReset, Run;
    var front := steps[..|steps| - 1];
    assert forall i :: 0 <= i < |front| ==> front[..i] == steps[..i];
    if ResetEnded(s, front, id, user) {
      var i :| 0 <= i < |front| && EndsReset(Run(s, front[..i]), front[i], id, user);
      assert EndsReset(Run(s, steps[..i]), steps[i], id, user);
    }
    if ResetEnded(s, steps, id, user) {
      var i :| 0 <= i < |steps| && EndsReset(Run(s, steps[..i]), steps[i], id, user);
      assert i < |front| ==> EndsReset(Run(s, front[..i]), front[i], id, user);
    }
  }

  /** A reset that was issued replaces its account's password whenever it is
      followed within the hour, unless that account has asked again or been masked
      or the reset has been spent; and in no other case. */
  lemma ResetsWorkForAnHour(s: Tables, ask: Step, more: seq<Step>, last: Step)
    requires ask.event.Ask? && ask.event.id !in s.resets && Taken(s.users, ask.event.email)
    requires last.event.Confirm? && last.event.token == ask.event.id
    requires ask.began <= ask.read && Timed(ask.read, more + [last])
    ensures Owner(s.users, ask.event.email).Some?
    ensures var user, issued := Owner(s.users, ask.event.email).value, Apply(s, ask);
            var t := Run(issued, more);
            && (Body(t, last).Success? <==>
                  last.read < ask.read + 3_600_000 && !ResetEnded(issued, more, ask.event.id, user))
            && (Body(t, last).Success? ==>
                  && user in t.users && last.event.token in t.resets
                  && Apply(t, last) == t.(
                       users := t.users[user := t.users[user].(hash := last.event.hash)],
                       resets := t.resets[last.event.token :=
                                            t.resets[last.event.token].(usedAt := Some(last.began))],
                       sessions := map x | x in t.sessions && t.sessions[x] != user :: t.sessions[x]))
  {
    hide Apply, Run, Owner, Taken, ResetIsDead, ResetLives, ResetEnded, Timed;
    AskingRevealsNothing(s, ask);
    var id, user, issued := ask.event.id, Owner(s.users, ask.event.email).value, Apply(s, ask);
    var row := Reset(user, ask.read + RESET_WINDOW, None, |s.resets|);
    var t := Run(issued, more);
    assert (more + [last])[..|more|] == more;
    TimedPrefix(ask.read, more + [last]);
    assert ResetLives(issued, id, row) by { NewResetLives(issued, id, row); }
    ResetLivesUntilEnded(issued, ask.read, more, id, row);
    UsableResetsConfirm(t, last);
    FollowedReset(t, last, id, row, Clock(ask.read, more));
  }

  lemma NewResetLives(s: Tables, id: nat, row: Reset)
    requires id in s.resets && s.resets[id] == row && row.user in s.users && s.users[row.user].live
    ensures ResetLives(s, id, row)
  {
  }

  lemma FollowedReset(t: Tables, last: Step, id: nat, row: Reset, now: nat)
    requires last.event.Confirm? && last.event.token == id && now <= last.began <= last.read && row.usedAt.None?
    ensures ResetIsDead(t, id, row.user, now) ==> !Body(t, last).Success?
    ensures ResetLives(t, id, row) ==> (Body(t, last).Success? <==> last.read < row.expiresAt)
    ensures ResetLives(t, id, row) && Body(t, last).Success? ==>
              && row.user in t.users && id in t.resets
              && Apply(t, last) == t.(
                   users := t.users[row.user := t.users[row.user].(hash := last.event.hash)],
                   resets := t.resets[id := t.resets[id].(usedAt := Some(last.began))],
                   sessions := map x | x in t.sessions && t.sessions[x] != row.user :: t.sessions[x])
  {
  }

  // ------------------------------------------------------ over a run: invitations

  /** A step after which an invitation no longer works: its address is invited
      again, or it is redeemed. */
  ghost predicate EndsInvitation(s: Tables, step: Step, id: nat, email: string) {
    match step.event
    case Invite(_, again, _) => SameAddress(again, email) && Body(s, step).Success?
    case Redeem(token, _, _, _) => token == id && Body(s, step).Success?
    case _ => false
  }

  ghost predicate InvitationEnded(s: Tables, steps: seq<Step>, id: nat, email: string) {
    exists i :: 0 <= i < |steps| && EndsInvitation(Run(s, steps[..i]), steps[i], id, email)
  }

  predicate InvitationLives(s: Tables, id: nat, row: Invitation) {
    id in s.invitations && s.invitations[id] == row
  }

  predicate InvitationIsDead(s: Tables, id: nat, now: nat) {
    id in s.invitations && (s.invitations[id].acceptedAt.Some? || s.invitations[id].expiresAt <= now)
  }

  lemma StepLetsInvitationLive(s: Tables, step: Step, id: nat, row: Invitation)
    requires InvitationLives(s, id, row) && row.acceptedAt.None?
    ensures EndsInvitation(s, step, id, row.email) ==> InvitationIsDead(Apply(s, step), id, step.began)
    ensures !EndsInvitation(s, step, id, row.email) ==> InvitationLives(Apply(s, step), id, row)
  {
    hide Owner, Taken, SignedOut, SameAddress, SupersedeResets;
    SameAddressIsEquivalence();
  }

  lemma DeadInvitationStaysDead(s: Tables, step: Step, id: nat, now: nat)
    requires InvitationIsDead(s, id, now)
    ensures InvitationIsDead(Apply(s, step), id, now)
  {
    StepOnlyAges(s, step);
    hide Apply;
  }

  lemma {:induction false} InvitationLivesUntilEnded(s: Tables, start: nat, steps: seq<Step>, id: nat, row: Invitation)
    requires InvitationLives(s, id, row) && row.acceptedAt.None? && Timed(start, steps)
    ensures InvitationEnded(s, steps, id, row.email) ==> InvitationIsDead(Run(s, steps), id, Clock(start, steps))
    ensures !InvitationEnded(s, steps, id, row.email) ==> InvitationLives(Run(s, steps), id, row)
  {
    if steps != [] {
      hide Apply, Timed, InvitationLives, EndsInvitation;
      var n := |steps| - 1;
      var front, last := steps[..n], steps[n];
      TimedPrefix(start, steps);
      InvitationLivesUntilEnded(s, start, front, id, row);
      PrefixEndsInvitation(s, steps, id, row.email);
      if InvitationEnded(s, front, id, row.email) {
        DeadInvitationStaysDead(Run(s, front), last, id, Clock(start, front));
      } else {
        StepLetsInvitationLive(Run(s, front), last, id, row);
      }
    }
  }

  lemma PrefixEndsInvitation(s: Tables, steps: seq<Step>, id: nat, email: string)
    requires steps != []
    ensures var n := |steps| - 1;
            InvitationEnded(s, steps, id, email) <==>
            InvitationEnded(s, steps[..n], id, email) || EndsInvitation(Run(s, steps[..n]), steps[n], id, email)
  {
    hide EndsInvitation, Run;
    var front := steps[..|steps| - 1];
    assert forall i :: 0 <= i < |front| ==> front[..i] == steps[..i];
    if InvitationEnded(s, front, id, email) {
      var i :| 0 <= i < |front| && EndsInvitation(Run(s, front[..i]), front[i], id, email);
      assert EndsInvitation(Run(s, steps[..i]), steps[i], id, email);
    }
    if InvitationEnded(s, steps, id, email) {
      var i :| 0 <= i < |steps| && EndsInvitation(Run(s, steps[..i]), steps[i], id, email);
      assert i < |front| ==> EndsInvitation(Run(s, front[..i]), front[i], id, email);
    }
  }

  /** An invitation that was issued creates an account of its address and role
      whenever it is followed within seven days, unless its address was invited again
      or it was redeemed; and in no other case. */
  lemma InvitationsWorkForAWeek(s: Tables, invite: Step, more: seq<Step>, last: Step)
    requires Consistent(s, invite.began) && invite.began <= invite.read
    requires invite.event.Invite? && invite.event.id !in s.invitations && !Taken(s.users, invite.event.email)
    requires last.event.Redeem? && last.event.token == invite.event.id
    requires Timed(invite.read, more + [last])
    requires last.event.user !in Run(Apply(s, invite), more).users
    ensures var e, issued := invite.event, Apply(s, invite);
            var t := Run(issued, more);
            && (Body(t, last).Success? <==>
                  last.read < invite.read + 604_800_000 && !InvitationEnded(issued, more, e.id, e.email))
            && (Body(t, last).Success? ==>
                  && e.id in t.invitations
                  && Apply(t, last) == t.(
                       users := t.users[last.event.user :=
                                          User(e.email, last.event.name, last.event.hash, e.role, true)],
                       invitations := t.invitations[e.id := t.invitations[e.id].(acceptedAt := Some(last.began))]))
  {
    hide Apply, Run, Taken, InvitationIsDead, InvitationLives, InvitationEnded, Timed, Consistent;
    InvitingIssues(s, invite);
    StepKeepsConsistent(s, invite);
    var id, issued := invite.event.id, Apply(s, invite);
    var row := Invitation(invite.event.email, invite.event.role, invite.read + INVITATION_WINDOW, None,
                          |s.invitations|);
    var t := Run(issued, more);
    assert (more + [last])[..|more|] == more;
    TimedPrefix(invite.read, more + [last]);
    assert InvitationLives(issued, id, row) by { NewInvitationLives(issued, id, row); }
    InvitationLivesUntilEnded(issued, invite.read, more, id, row);
    RunsKeepConsistent(issued, invite.read, more);
    TimeKeepsConsistent(t, Clock(invite.read, more), last.began);
    UsableLinksRedeem(t, last);
    FollowedInvitation(t, last, id, row, Clock(invite.read, more));
  }

  lemma NewInvitationLives(s: Tables, id: nat, row: Invitation)
    requires id in s.invitations && s.invitations[id] == row
    ensures InvitationLives(s, id, row)
  {
  }

  lemma FollowedInvitation(t: Tables, last: Step, id: nat, row: Invitation, now: nat)
    requires last.event.Redeem? && last.event.token == id && now <= last.began <= last.read && row.acceptedAt.None?
    ensures InvitationIsDead(t, id, now) ==> !(id in t.invitations && InvitationUsable(t.invitations[id], last.read))
    ensures InvitationLives(t, id, row) && Body(t, last).Success? ==>
              && id in t.invitations
              && Apply(t, last) == t.(
                   users := t.users[last.event.user :=
                                      User(row.email, last.event.name, last.event.hash, row.role, true)],
                   invitations := t.invitations[id := t.invitations[id].(acceptedAt := Some(last.began))])
    ensures InvitationLives(t, id, row) ==>
              && id in t.invitations && t.invitations[id] == row
              && (InvitationUsable(row, last.read) <==> last.read < row.expiresAt)
  {
  }
}
