/** Whom a session signs in: in every run of module SessionRuns, the account it was
    issued for, while that account is registered and not masked. */
module SessionOwners {
  import opened Results
  import opened Sessions
  import opened SessionRuns

  /** Of the steps that register or mask the account, the last registered it. */
  predicate Registered(actions: seq<Action>, user: nat) {
    if actions == [] then false
    else
      match actions[|actions| - 1]
      case Register(u) => u == user || Registered(actions[..|actions| - 1], user)
      case MaskUser(u) => u != user && Registered(actions[..|actions| - 1], user)
      case _ => Registered(actions[..|actions| - 1], user)
  }

  lemma {:induction false} LiveIffRegistered(actions: seq<Action>, user: nat)
    ensures user in Run(actions).tables.live <==> Registered(actions, user)
  {
    if actions != [] {
      var front, last := actions[..|actions| - 1], actions[|actions| - 1];
      LiveIffRegistered(front, user);
      hide Run;
      StepKeepsOthersLive(Run(front), last, user);
      assert Run(actions) == Next(Run(front), last) by { RunStep(front, last); assert front + [last] == actions; }
    }
  }

  lemma StepKeepsOthersLive(s: State, a: Action, user: nat)
    ensures user in Next(s, a).tables.live <==>
            if a.Register? then a.user == user || user in s.tables.live
            else if a.MaskUser? then a.user != user && user in s.tables.live
            else user in s.tables.live
  {
  }

  // ------------------------------------------------------------ one owner

  predicate Known(s: State, id: nat) {
    id in s.tables.sessions || id in s.gone
  }

  /** Every request that found a row found one that was stored. */
  predicate FoundKnown(s: State, q: Request) {
    !q.Refused? ==> Known(s, q.id)
  }

  /** The session, and whatever requests have found of it, name this account. */
  predicate NamesOwner(q: Request, id: nat, user: nat) {
    match q
    case HasRead(x, row) => x == id ==> row.user == user
    case Renewing(x, row, _) => x == id ==> row.user == user
    case Answered(x, answer, _) => x == id ==> answer == user
    case Refused => true
  }

  ghost predicate BelongsTo(s: State, id: nat, user: nat) {
    && Known(s, id) && (id in s.tables.sessions ==> s.tables.sessions[id].user == user)
    && (forall r :: r in s.requests ==> NamesOwner(s.requests[r], id, user))
  }

  lemma StepKeepsKnown(s: State, a: Action)
    requires forall r :: r in s.requests ==> FoundKnown(s, s.requests[r])
    ensures var s' := Next(s, a); forall r :: r in s'.requests ==> FoundKnown(s', s'.requests[r])
  {
  }

  lemma StepKeepsOwner(s: State, a: Action, id: nat, user: nat)
    requires BelongsTo(s, id, user)
    ensures BelongsTo(Next(s, a), id, user)
  {
  }

  lemma {:induction false} RequestsFindKnown(actions: seq<Action>)
    ensures forall r :: r in Run(actions).requests ==> FoundKnown(Run(actions), Run(actions).requests[r])
  {
    if actions != [] {
      hide Next, FoundKnown;
      RequestsFindKnown(actions[..|actions| - 1]);
      StepKeepsKnown(Run(actions[..|actions| - 1]), actions[|actions| - 1]);
    }
  }

  /** The step stored a new session. */
  predicate TookEffect(before: seq<Action>, issue: Action) {
    && issue.Issue? && issue.id !in Run(before).tables.sessions
    && issue.id in Next(Run(before), issue).tables.sessions
  }

  lemma IssuedBelongs(before: seq<Action>, issue: Action)
    requires TookEffect(before, issue)
    ensures BelongsTo(Next(Run(before), issue), issue.id, issue.user)
  {
    RequestsFindKnown(before);
    hide Run;
  }

  lemma {:induction false} IssuedKeepsOwner(before: seq<Action>, issue: Action, more: seq<Action>)
    requires TookEffect(before, issue)
    ensures BelongsTo(Run(before + [issue] + more), issue.id, issue.user)
  {
    hide Next, BelongsTo, Run;
    if more == [] {
      assert before + [issue] + more == before + [issue];
      RunStep(before, issue);
      IssuedBelongs(before, issue);
    } else {
      var n := |more| - 1;
      IssuedKeepsOwner(before, issue, more[..n]);
      assert before + [issue] + more == before + [issue] + more[..n] + [more[n]];
      RunStep(before + [issue] + more[..n], more[n]);
      StepKeepsOwner(Run(before + [issue] + more[..n]), more[n], issue.id, issue.user);
    }
  }

  /** After its issue a token signs in the account it was issued for and no other,
      and it does exactly while the session is not deleted, its stored deadline is
      not reached, and the account is registered and not masked. */
  lemma {:induction false} TokensSignInTheirOwner(before: seq<Action>, issue: Action, more: seq<Action>, t: nat)
    requires TookEffect(before, issue)
    ensures var all := before + [issue] + more;
            var s := Run(all);
            && (issue.id in s.tables.sessions <==> issue.id !in s.gone)
            && Accepts(s.tables, Some(issue.id), t) ==
               if issue.id in s.tables.sessions && t < s.tables.sessions[issue.id].expiresAt
                  && Registered(all, issue.user)
               then Some(issue.user) else None
  {
    hide Next, Run, Registered;
    var all := before + [issue] + more;
    IssuedKeepsOwner(before, issue, more);
    LiveIffRegistered(all, issue.user);
    RunsAreSound(all);
    assert issue.id in Run(all).tables.sessions ==> RowSound(Run(all), issue.id);
  }

  /** Whatever runs between its three steps, a request that is let in is let in as
      the account its session was issued for. */
  lemma RequestsSignInTheOwner(before: seq<Action>, issue: Action, more: seq<Action>, r: nat)
    requires TookEffect(before, issue)
    requires var s := Run(before + [issue] + more);
             r in s.requests && s.requests[r].Answered? && s.requests[r].id == issue.id
    ensures Run(before + [issue] + more).requests[r].user == issue.user
  {
    hide Next, Run;
    IssuedKeepsOwner(before, issue, more);
    assert NamesOwner(Run(before + [issue] + more).requests[r], issue.id, issue.user);
  }

  /** And it finds a row to be let in by exactly when, as it reads, the session is
      stored and its account registered and not masked. */
  lemma ReadsFindLiveOwners(actions: seq<Action>, r: nat, token: nat)
    requires r !in Run(actions).requests
    ensures var s, s' := Run(actions), Next(Run(actions), Read(r, token));
            s'.requests[r] ==
            if token in s.tables.sessions && Registered(actions, s.tables.sessions[token].user)
            then HasRead(token, s.tables.sessions[token]) else Refused
  {
    hide Run, Registered;
    if token in Run(actions).tables.sessions {
      LiveIffRegistered(actions, Run(actions).tables.sessions[token].user);
    }
  }

  lemma StepKeepsCreation(s: State, a: Action, id: nat)
    requires Known(s, id) && id in Next(s, a).tables.sessions
    ensures id in s.tables.sessions && Next(s, a).tables.sessions[id].createdAt == s.tables.sessions[id].createdAt
  {
  }

  /** A session is stored with fourteen days to its first deadline from the clock it
      was issued by; its ninety days count from its insert, through every run. */
  lemma {:induction false} IssuedKeepsCreation(before: seq<Action>, issue: Action, more: seq<Action>)
    requires TookEffect(before, issue)
    ensures Run(before + [issue]).tables.sessions ==
            Run(before).tables.sessions[issue.id :=
              Session(issue.user, issue.created, issue.created, issue.now + 1_209_600_000)]
    ensures var s := Run(before + [issue] + more);
            issue.id in s.tables.sessions ==>
              && s.tables.sessions[issue.id].createdAt == issue.created
              && s.tables.sessions[issue.id].expiresAt <= issue.created + 7_776_000_000
  {
    RunStep(before, issue);
    assert Run(before + [issue]) == Next(Run(before), issue);
    hide Run;
    var all := before + [issue] + more;
    if more == [] {
      assert all == before + [issue];
    } else {
      var n := |more| - 1;
      assert all == before + [issue] + more[..n] + [more[n]];
      RunStep(before + [issue] + more[..n], more[n]);
      IssuedKeepsOwner(before, issue, more[..n]);
      IssuedKeepsCreation(before, issue, more[..n]);
      hide Next;
      if issue.id in Run(all).tables.sessions {
        StepKeepsCreation(Run(before + [issue] + more[..n]), more[n], issue.id);
      }
    }
    if issue.id in Run(all).tables.sessions {
      DeadlinesAreBounded(all, issue.id);
    }
  }
}
