/** What superseding links promises over whole runs, with each transaction body
    as one step on a clock that never goes back. */
module Supersession {
  import opened Results
  import opened IdentityTables

  datatype Event =
    | Invite(id: nat, email: string, role: string)
    | Redeem(token: nat, user: nat, name: string, hash: string)
    | Ask(id: nat, email: string)
    | Confirm(token: nat, hash: string)
    | MaskUser(user: nat)
    | SignIn(session: nat, user: nat)

  /** An event with its transaction's clock and the service's clock inside it. */
  datatype Step = Step(event: Event, began: nat, read: nat)

  ghost function Body(s: Tables, step: Step): Outcome {
    match step.event
    case Invite(id, email, role) => CreateBody(s, id, email, role, step.began, step.read)
    case Redeem(token, user, name, hash) => AcceptBody(s, token, user, name, hash, step.began, step.read)
    case Ask(id, email) => RequestBody(s, id, email, step.began, step.read)
    case Confirm(token, hash) => ConfirmBody(s, token, hash, step.began, step.read)
    case MaskUser(user) => Success(Mask(s, user))
    case SignIn(session, user) =>
      Success(if user in s.users && s.users[user].live then s.(sessions := s.sessions[session := user]) else s)
  }

  ghost function Apply(s: Tables, step: Step): Tables {
    InTx(s, Body(s, step))
  }

  ghost function Run(s: Tables, steps: seq<Step>): Tables {
    if steps == [] then s
    else Apply(Run(s, steps[..|steps| - 1]), steps[|steps| - 1])
  }

  /** The clock after the steps. */
  function Clock(start: nat, steps: seq<Step>): nat {
    if steps == [] then start else steps[|steps| - 1].read
  }

  predicate Timed(start: nat, steps: seq<Step>) {
    forall i :: 0 <= i < |steps| ==> Clock(start, steps[..i]) <= steps[i].began <= steps[i].read
  }

  // ------------------------------------------------------------- invariant

  ghost predicate Numbered(s: Tables) {
    && (forall i :: i in s.invitations ==> s.invitations[i].serial < |s.invitations|)
    && (forall i :: i in s.resets ==> s.resets[i].serial < |s.resets|)
  }

  /** A usable invitation came after every other one of its address. */
  ghost predicate OnlyLastInvitation(rows: map<nat, Invitation>, now: nat) {
    forall i, j ::
      i in rows && j in rows && i != j && InvitationUsable(rows[i], now)
      && SameAddress(rows[i].email, rows[j].email) ==>
        rows[j].serial < rows[i].serial
  }

  /** A usable reset came after every other one of its account. */
  ghost predicate OnlyLastReset(rows: map<nat, Reset>, now: nat) {
    forall i, j ::
      i in rows && j in rows && i != j && ResetUsable(rows[i], now) && rows[i].user == rows[j].user ==>
        rows[j].serial < rows[i].serial
  }

  /** No address has both a live account and a usable invitation. */
  ghost predicate NeverBoth(s: Tables, now: nat) {
    forall u, i ::
      u in s.users && i in s.invitations && InvitationUsable(s.invitations[i], now) ==>
        !Owns(s.users[u], s.invitations[i].email)
  }

  ghost predicate Consistent(s: Tables, now: nat) {
    && UniqueAddresses(s.users) && Numbered(s)
    && OnlyLastInvitation(s.invitations, now) && OnlyLastReset(s.resets, now) && NeverBoth(s, now)
  }

  lemma TimeKeepsConsistent(s: Tables, now: nat, later: nat)
    requires Consistent(s, now) && now <= later
    ensures Consistent(s, later)
  {
  }

  // --------------------------------------------------------- the one-step laws

  lemma SupersedingLeavesNone(rows: map<nat, Invitation>, email: string, now: nat)
    ensures var rows' := SupersedeInvitations(rows, email, now);
            && rows'.Keys == rows.Keys && |rows'| == |rows|
            && (forall i :: i in rows' ==>
                  rows'[i].(expiresAt := rows[i].expiresAt) == rows[i]
                  && (InvitationUsable(rows'[i], now) <==>
                      InvitationUsable(rows[i], now) && !SameAddress(rows[i].email, email)))
            && (forall i, t :: i in rows' && InvitationUsable(rows'[i], t) ==> InvitationUsable(rows[i], t))
  {
    var rows' := SupersedeInvitations(rows, email, now);
    assert rows'.Keys == rows.Keys;
    assert |rows'.Keys| == |rows.Keys|;
  }

  lemma SupersedingLeavesNoReset(rows: map<nat, Reset>, user: nat, now: nat)
    ensures var rows' := SupersedeResets(rows, user, now);
            && rows'.Keys == rows.Keys && |rows'| == |rows|
            && (forall i :: i in rows' ==>
                  rows'[i].(expiresAt := rows[i].expiresAt) == rows[i]
                  && (ResetUsable(rows'[i], now) <==> ResetUsable(rows[i], now) && rows[i].user != user))
            && (forall i, t :: i in rows' && ResetUsable(rows'[i], t) ==> ResetUsable(rows[i], t))
  {
    var rows' := SupersedeResets(rows, user, now);
    assert rows'.Keys == rows.Keys;
    assert |rows'.Keys| == |rows.Keys|;
  }

  lemma InvitingKeepsConsistent(s: Tables, id: nat, email: string, role: string, began: nat, read: nat)
    requires Consistent(s, began) && began <= read
    ensures Consistent(InTx(s, CreateBody(s, id, email, role, began, read)), read)
  {
    hide SupersedeInvitations, SameAddress;
    SameAddressIsEquivalence();
    SupersedingLeavesNone(s.invitations, email, began);
    TimeKeepsConsistent(s, began, read);
  }

  lemma SameAddressIsEquivalence()
    ensures forall a :: SameAddress(a, a)
    ensures forall a, b :: SameAddress(a, b) ==> SameAddress(b, a)
    ensures forall a, b, c :: SameAddress(a, b) && SameAddress(b, c) ==> SameAddress(a, c)
  {
  }

  lemma AskingKeepsConsistent(s: Tables, id: nat, email: string, began: nat, read: nat)
    requires Consistent(s, began) && began <= read
    ensures Consistent(InTx(s, RequestBody(s, id, email, began, read)), read)
  {
    hide SupersedeResets, Owns, UniqueAddresses;
    TimeKeepsConsistent(s, began, read);
    if Taken(s.users, email) {
      SupersedingLeavesNoReset(s.resets, Owner(s.users, email).value, began);
    }
  }

  lemma RedeemingKeepsConsistent(s: Tables, token: nat, user: nat, name: string, hash: string, began: nat, read: nat)
    requires Consistent(s, began) && began <= read
    ensures Consistent(InTx(s, AcceptBody(s, token, user, name, hash, began, read)), read)
  {
    hide SameAddress;
    SameAddressIsEquivalence();
    TimeKeepsConsistent(s, began, read);
  }

  lemma ConfirmingKeepsConsistent(s: Tables, token: nat, hash: string, began: nat, read: nat)
    requires Consistent(s, began) && began <= read
    ensures Consistent(InTx(s, ConfirmBody(s, token, hash, began, read)), read)
  {
    hide SameAddress, SignedOut, OnlyLastInvitation;
    TimeKeepsConsistent(s, began, read);
  }

  lemma MaskingKeepsConsistent(s: Tables, user: nat, now: nat)
    requires Consistent(s, now)
    ensures Consistent(Mask(s, user), now)
  {
    hide SameAddress, MaskedAddress, OnlyLastInvitation, OnlyLastReset, Numbered;
    assert Numbered(Mask(s, user)) by { SameRowsAreNumbered(s, Mask(s, user)); }
  }

  lemma SameRowsAreNumbered(s: Tables, s': Tables)
    requires Numbered(s) && s'.invitations == s.invitations && s'.resets == s.resets
    ensures Numbered(s')
  {
  }

  lemma SigningInKeepsConsistent(s: Tables, sessions: map<nat, nat>, now: nat)
    requires Consistent(s, now)
    ensures Consistent(s.(sessions := sessions), now)
  {
    hide SameAddress, OnlyLastInvitation, OnlyLastReset, UniqueAddresses;
  }

  lemma StepKeepsConsistent(s: Tables, step: Step)
    requires Consistent(s, step.began) && step.began <= step.read
    ensures Consistent(Apply(s, step), step.read)
  {
    hide Consistent;
    match step.event
    case Invite(id, email, role) => InvitingKeepsConsistent(s, id, email, role, step.began, step.read);
    case Redeem(token, user, name, hash) => RedeemingKeepsConsistent(s, token, user, name, hash, step.began, step.read);
    case Ask(id, email) => AskingKeepsConsistent(s, id, email, step.began, step.read);
    case Confirm(token, hash) => ConfirmingKeepsConsistent(s, token, hash, step.began, step.read);
    case MaskUser(user) =>
      TimeKeepsConsistent(s, step.began, step.read);
      MaskingKeepsConsistent(s, user, step.read);
    case SignIn(session, user) =>
      TimeKeepsConsistent(s, step.began, step.read);
      SigningInKeepsConsistent(s, s.sessions[session := user], step.read);
  }

  // ----------------------------------------------------------- every run

  lemma TimedPrefix(start: nat, steps: seq<Step>)
    requires steps != [] && Timed(start, steps)
    ensures Timed(start, steps[..|steps| - 1])
    ensures Clock(start, steps[..|steps| - 1]) <= steps[|steps| - 1].began <= steps[|steps| - 1].read
  {
    var front := steps[..|steps| - 1];
    forall i | 0 <= i < |front| ensures Clock(start, front[..i]) <= front[i].began <= front[i].read {
      assert front[..i] == steps[..i];
    }
  }

  lemma {:induction false} RunsKeepConsistent(s: Tables, start: nat, steps: seq<Step>)
    requires Consistent(s, start) && Timed(start, steps)
    ensures Consistent(Run(s, steps), Clock(start, steps))
  {
    if steps != [] {
      hide Consistent, Apply, Timed;
      var front, last := steps[..|steps| - 1], steps[|steps| - 1];
      TimedPrefix(start, steps);
      RunsKeepConsistent(s, start, front);
      TimeKeepsConsistent(Run(s, front), Clock(start, front), last.began);
      StepKeepsConsistent(Run(s, front), last);
    }
  }

  /** At every moment an address has at most one usable invitation and an account
      at most one usable reset, each the last one issued; and no address has both
      a live account and a usable invitation. */
  lemma {:induction false} OneUsableLink(s: Tables, start: nat, steps: seq<Step>, now: nat)
    requires Consistent(s, start) && Timed(start, steps) && Clock(start, steps) <= now
    ensures var rows := Run(s, steps).invitations;
            forall i, j :: i in rows && j in rows && InvitationUsable(rows[i], now) ==>
              (SameAddress(rows[i].email, rows[j].email) ==> rows[j].serial <= rows[i].serial)
              && (SameAddress(rows[i].email, rows[j].email) && InvitationUsable(rows[j], now) ==> i == j)
    ensures var rows := Run(s, steps).resets;
            forall i, j :: i in rows && j in rows && ResetUsable(rows[i], now) && rows[i].user == rows[j].user ==>
              rows[j].serial <= rows[i].serial && (ResetUsable(rows[j], now) ==> i == j)
    ensures var t := Run(s, steps);
            forall u, i ::
              u in t.users && i in t.invitations && InvitationUsable(t.invitations[i], now) && t.users[u].live ==>
              !SameAddress(t.users[u].email, t.invitations[i].email)
  {
    hide Run, Timed, SameAddress, Clock, UniqueAddresses, Numbered;
    RunsKeepConsistent(s, start, steps);
    TimeKeepsConsistent(Run(s, steps), Clock(start, steps), now);
    SameAddressIsEquivalence();
  }

  // ------------------------------------------------------- rows only close

  /** A row may be stamped once and its deadline may move earlier, nothing else. */
  predicate Ages(row: Invitation, row': Invitation) {
    && row'.email == row.email && row'.role == row.role && row'.serial == row.serial
    && row'.expiresAt <= row.expiresAt
    && (row.acceptedAt.Some? ==> row' == row)
  }

  predicate ResetAges(row: Reset, row': Reset) {
    && row'.user == row.user && row'.serial == row.serial
    && row'.expiresAt <= row.expiresAt
    && (row.usedAt.Some? ==> row' == row)
  }

  ghost predicate OnlyAges(s: Tables, s': Tables) {
    && (forall i :: i in s.invitations ==> i in s'.invitations && Ages(s.invitations[i], s'.invitations[i]))
    && (forall i :: i in s.resets ==> i in s'.resets && ResetAges(s.resets[i], s'.resets[i]))
  }

  lemma InvitingOnlyAges(s: Tables, id: nat, email: string, role: string, began: nat, read: nat)
    ensures OnlyAges(s, InTx(s, CreateBody(s, id, email, role, began, read)))
  {
    hide SameAddress, Taken;
  }

  lemma AskingOnlyAges(s: Tables, id: nat, email: string, began: nat, read: nat)
    ensures OnlyAges(s, InTx(s, RequestBody(s, id, email, began, read)))
  {
    hide Owner;
  }

  lemma StampingOnlyAges(s: Tables, step: Step)
    requires !step.event.Invite? && !step.event.Ask?
    ensures OnlyAges(s, Apply(s, step))
  {
    hide SameAddress, Taken, SignedOut;
  }

  lemma StepOnlyAges(s: Tables, step: Step)
    ensures OnlyAges(s, Apply(s, step))
  {
    hide OnlyAges;
    match step.event
    case Invite(id, email, role) => InvitingOnlyAges(s, id, email, role, step.began, step.read);
    case Ask(id, email) => AskingOnlyAges(s, id, email, step.began, step.read);
    case _ => StampingOnlyAges(s, step);
  }

  lemma AgesTransitive(s: Tables, s': Tables, s'': Tables)
    requires OnlyAges(s, s') && OnlyAges(s', s'')
    ensures OnlyAges(s, s'')
  {
  }

  /** A stamped row keeps its deadline, and everything else, for ever; a row that
      is not usable never becomes usable again. */
  lemma {:induction false} LinksOnlyClose(s: Tables, steps: seq<Step>)
    ensures OnlyAges(s, Run(s, steps))
  {
    if steps != [] {
      hide OnlyAges, Apply;
      var front := steps[..|steps| - 1];
      LinksOnlyClose(s, front);
      StepOnlyAges(Run(s, front), steps[|steps| - 1]);
      AgesTransitive(s, Run(s, front), Run(s, steps));
    } else {
    }
  }

  // -------------------------------------------------- what one answer means

  /** Once an address is invited again, its earlier links never work again. */
  lemma NewLinkEndsEarlierOnes(s: Tables, step: Step, more: seq<Step>, i: nat, now: nat)
    requires step.event.Invite? && Body(s, step).Success? && step.began <= now
    requires i in s.invitations && SameAddress(s.invitations[i].email, step.event.email)
    ensures var rows := Run(Apply(s, step), more).invitations;
            i in rows && !InvitationUsable(rows[i], now)
  {
    hide SameAddress, Run, Taken;
    LinksOnlyClose(Apply(s, step), more);
  }

  /** Once an account asks again, its earlier resets never work again. */
  lemma NewResetEndsEarlierOnes(s: Tables, step: Step, more: seq<Step>, i: nat, now: nat)
    requires step.event.Ask? && Taken(s.users, step.event.email) && Body(s, step).Success? && step.began <= now
    requires i in s.resets && Owner(s.users, step.event.email) == Some(s.resets[i].user)
    ensures var rows := Run(Apply(s, step), more).resets;
            i in rows && !ResetUsable(rows[i], now)
  {
    hide Run, Owner, Taken;
    LinksOnlyClose(Apply(s, step), more);
  }

  /** A link that worked never works again, whoever follows it and whenever. */
  lemma LinksWorkOnce(s: Tables, step: Step, more: seq<Step>, again: Step)
    requires Body(s, step).Success?
    ensures step.event.Redeem? && again.event.Redeem? && again.event.token == step.event.token ==>
              Body(Run(Apply(s, step), more), again) == Failure(InvitationNotUsable)
    ensures step.event.Confirm? && again.event.Confirm? && again.event.token == step.event.token ==>
              Body(Run(Apply(s, step), more), again) == Failure(ResetNotUsable)
  {
    hide Run, Taken, SignedOut, RequestBody, CreateBody;
    LinksOnlyClose(Apply(s, step), more);
  }

  /** On consistent tables a redemption never meets a taken address: following a
      usable link creates its account, with a fresh id, and nothing else does. */
  lemma UsableLinksRedeem(s: Tables, step: Step)
    requires Consistent(s, step.began) && step.began <= step.read && step.event.Redeem?
    requires step.event.user !in s.users
    ensures var e := step.event;
            Body(s, step).Success? <==>
            e.token in s.invitations && InvitationUsable(s.invitations[e.token], step.read)
    ensures var e := step.event;
            Body(s, step).Success? ==>
              && var row, t := s.invitations[e.token], Apply(s, step);
              && t.users == s.users[e.user := User(row.email, e.name, e.hash, row.role, true)]
              && (forall i, now ::
                    i in t.invitations && SameAddress(t.invitations[i].email, row.email) && step.read <= now ==>
                    !InvitationUsable(t.invitations[i], now))
  {
    hide SameAddress, UniqueAddresses, Numbered, OnlyLastReset;
    SameAddressIsEquivalence();
  }

  /** A confirmed reset leaves no session of its account and touches no other
      account, session or reset. */
  lemma ConfirmingTouchesOneAccount(s: Tables, step: Step)
    requires step.event.Confirm? && Body(s, step).Success?
    ensures var e, t := step.event, Apply(s, step);
            && e.token in s.resets
            && var user := s.resets[e.token].user;
            && user in s.users && s.users[user].live && t.users == s.users[user := s.users[user].(hash := e.hash)]
            && (forall x :: x in t.sessions <==> x in s.sessions && s.sessions[x] != user)
            && (forall x :: x in t.sessions ==> t.sessions[x] == s.sessions[x])
            && t.invitations == s.invitations && t.resets - {e.token} == s.resets - {e.token}
  {
  }
}
