/** What a spent reset stands for: one password hash, written to one account. */
module PasswordWrites {
  import opened Passwords

  /** The account has this hash, or had it before another was written. */
  predicate Held(s: State, user: nat, hash: Hash) {
    (user in s.users && s.users[user].hash == hash) || (user, hash) in s.retired
  }

  /** A hash a confirmation made is held by the account that confirmation wrote. */
  predicate Owned(s: State, user: nat, hash: Hash) {
    hash.maker.Confirmation? ==>
      && hash.maker.c in s.confirms
      && s.confirms[hash.maker.c].Confirmed?
      && s.confirms[hash.maker.c].user == user && s.confirms[hash.maker.c].hash == hash
  }

  /** Committed confirmations and the hashes they made are held one for one. */
  ghost predicate WritesPairOff(s: State) {
    && (forall c :: c in s.confirms && s.confirms[c].Confirmed? ==> Held(s, s.confirms[c].user, s.confirms[c].hash))
    && (forall user :: user in s.users ==> Owned(s, user, s.users[user].hash))
    && (forall r :: r in s.retired ==> Owned(s, r.0, r.1))
  }

  // ------------------------------------------------------------- each step

  lemma OwnedStays(s: State, s': State, user: nat, hash: Hash)
    requires Owned(s, user, hash)
    requires forall c :: c in s.confirms && s.confirms[c].Confirmed? ==>
               c in s'.confirms && s'.confirms[c] == s.confirms[c]
    ensures Owned(s', user, hash)
  {
  }

  /** A step under which no stored hash is replaced, and none is confirmed. */
  ghost predicate WritesNothing(s: State, s': State) {
    && s'.retired == s.retired && s.users.Keys <= s'.users.Keys
    && (forall u :: u in s.users ==> s'.users[u].hash == s.users[u].hash)
    && (forall u :: u in s'.users && u !in s.users ==> s'.users[u].hash.maker.Registration?)
    && (forall c :: c in s.confirms && s.confirms[c].Confirmed? ==> c in s'.confirms && s'.confirms[c] == s.confirms[c])
    && (forall c :: c in s'.confirms && s'.confirms[c].Confirmed? ==> c in s.confirms && s.confirms[c].Confirmed?)
  }

  lemma WritingNothingKeepsPairs(s: State, s': State)
    requires WritesPairOff(s) && WritesNothing(s, s')
    ensures WritesPairOff(s')
  {
    forall user | user in s'.users ensures Owned(s', user, s'.users[user].hash) {
      if user in s.users {
        OwnedStays(s, s', user, s.users[user].hash);
      }
    }
    forall r | r in s'.retired ensures Owned(s', r.0, r.1) {
      OwnedStays(s, s', r.0, r.1);
    }
  }

  lemma RowStepsWriteNothing(s: State, a: Action)
    requires a.Register? || a.RaiseCost? || a.Mask? || a.Issue? || a.Expire?
    ensures WritesNothing(s, Next(s, a))
  {
    hide UserLocked, ResetLocked, IsUsable;
  }

  lemma ConfirmingWritesNothing(s: State, c: nat, phase: Confirming)
    requires !phase.Confirmed? && (c in s.confirms ==> !s.confirms[c].Confirmed?)
    ensures WritesNothing(s, Confirm(s, c, phase)) && WritesNothing(s, s)
  {
  }

  lemma LoggingInWritesNothing(s: State, l: nat, phase: LoggingIn)
    ensures WritesNothing(s, s.(logins := s.logins[l := phase])) && WritesNothing(s, s)
  {
  }

  lemma LoginsWriteNothing(s: State, a: Action)
    requires a.Login? || a.Rehash?
    ensures WritesNothing(s, Next(s, a))
  {
    hide WritesNothing;
    LoggingInWritesNothing(s, a.l, Left);
    if a.Rehash? {
      if a.l in s.logins && s.logins[a.l].HasRead? {
        LoggingInWritesNothing(s, a.l, Next(s, a).logins[a.l]);
      }
    } else if a.l !in s.logins && a.user in s.users {
      LoggingInWritesNothing(s, a.l, HasRead(a.user, s.users[a.user].hash));
    }
  }

  lemma MovesWriteNothing(s: State, a: Action)
    requires a.HashNew? || a.Begin? || a.Rollback? || a.Check? || a.Stamp? || a.Write?
    ensures WritesNothing(s, Next(s, a))
  {
    hide WritesNothing, Confirm, CheckStep, StampStep, WriteStep;
    var c := a.c;
    if c !in s.confirms {
      ConfirmingWritesNothing(s, c, Abandoned);
      if a.HashNew? {
        ConfirmingWritesNothing(s, c, Hashed(a.token, Hash(a.password, s.cost, Confirmation(c))));
      }
    } else {
      var phase := s.confirms[c];
      if !phase.Confirmed? {
        ConfirmingWritesNothing(s, c, Abandoned);
      } else {
        LoggingInWritesNothing(s, 0, Left);
      }
      if phase.Hashed? && a.Begin? {
        ConfirmingWritesNothing(s, c, Begun(phase.token, phase.hash, a.now));
      }
      StatementsWriteNothing(s, c, phase, if a.Check? then a.now else 0);
    }
  }

  lemma StatementsWriteNothing(s: State, c: nat, phase: Confirming, now: nat)
    requires c in s.confirms && s.confirms[c] == phase
    ensures phase.Begun? ==> WritesNothing(s, CheckStep(s, c, phase, now))
    ensures phase.Checked? ==> WritesNothing(s, StampStep(s, c, phase))
    ensures phase.Stamped? ==> WritesNothing(s, WriteStep(s, c, phase))
  {
    hide WritesNothing, Confirm, UserLocked, ResetLocked, IsUsable;
    if !phase.Confirmed? {
      ConfirmingWritesNothing(s, c, Abandoned);
    }
    match phase
    case Begun(token, hash, startedAt) =>
      if token in s.resets {
        ConfirmingWritesNothing(s, c, Checked(token, s.resets[token].user, hash, startedAt));
      }
    case Checked(id, user, hash, _) => ConfirmingWritesNothing(s, c, Stamped(id, user, hash));
    case Stamped(id, user, hash) => ConfirmingWritesNothing(s, c, Written(id, user, hash));
    case _ =>
  }

  lemma CommitKeepsPairs(s: State, c: nat)
    requires WritesPairOff(s) && Consistent(s) && c in s.confirms && s.confirms[c].Written?
    ensures WritesPairOff(CommitStep(s, c, s.confirms[c]))
  {
    hide HashesAreSound, LoginKnows;
    var phase := s.confirms[c];
    var s' := CommitStep(s, c, phase);
    assert ConfirmKnows(s, c, phase);
    forall user | user in s'.users ensures Owned(s', user, s'.users[user].hash) {
      if user != phase.user {
        OwnedStays(s, s', user, s.users[user].hash);
      }
    }
    forall r | r in s'.retired ensures Owned(s', r.0, r.1) {
      OwnedStays(s, s', r.0, r.1);
    }
  }

  lemma SwapKeepsPairs(s: State, l: nat)
    requires WritesPairOff(s) && Consistent(s) && l in s.logins && s.logins[l].HasRehashed?
    ensures WritesPairOff(SwapStep(s, l, s.logins[l]))
  {
    hide HashesAreSound, ConfirmKnows, UserLocked;
    var phase := s.logins[l];
    var s' := SwapStep(s, l, phase);
    assert LoginKnows(s, l, phase);
    forall user | user in s'.users ensures Owned(s', user, s'.users[user].hash) {
      assert Owned(s, user, s.users[user].hash);
    }
    forall r | r in s'.retired ensures Owned(s', r.0, r.1) {
      OwnedStays(s, s', r.0, r.1);
    }
  }

  lemma StepKeepsPairs(s: State, a: Action)
    requires WritesPairOff(s) && Consistent(s)
    ensures WritesPairOff(Next(s, a))
  {
    hide WritesPairOff, WritesNothing, Consistent, CommitStep, SwapStep;
    if a.Commit? {
      if a.c in s.confirms && s.confirms[a.c].Written? {
        CommitKeepsPairs(s, a.c);
      }
    } else if a.Swap? {
      if a.l in s.logins && s.logins[a.l].HasRehashed? {
        SwapKeepsPairs(s, a.l);
      }
    } else {
      hide Next;
      if a.Register? || a.RaiseCost? || a.Mask? || a.Issue? || a.Expire? {
        RowStepsWriteNothing(s, a);
      } else if a.Login? || a.Rehash? {
        LoginsWriteNothing(s, a);
      } else {
        MovesWriteNothing(s, a);
      }
      WritingNothingKeepsPairs(s, Next(s, a));
    }
  }

  // ------------------------------------------------------------ every run

  lemma {:induction false} RunsPairOff(actions: seq<Action>)
    ensures WritesPairOff(Run(actions))
  {
    if actions != [] {
      hide Next, WritesPairOff, Consistent, Exclusive;
      var front := actions[..|actions| - 1];
      RunsPairOff(front);
      RunsAreConsistent(front);
      StepKeepsPairs(Run(front), actions[|actions| - 1]);
    }
  }

  /** A hash that a committed confirmation of this reset made. */
  predicate MadeFor(s: State, hash: Hash, id: nat) {
    && hash.maker.Confirmation? && hash.maker.c in s.confirms
    && s.confirms[hash.maker.c].Confirmed? && s.confirms[hash.maker.c].id == id
  }

  /** A reset is spent exactly when a hash made for it was written to an account. */
  lemma {:induction false} SpentMeansWritten(actions: seq<Action>, id: nat)
    requires id in Run(actions).resets
    ensures var s := Run(actions);
            s.resets[id].used <==> exists user, hash :: Held(s, user, hash) && MadeFor(s, hash, id)
  {
    hide Run, Next;
    var s := Run(actions);
    RunsPairOff(actions);
    RunsAreConsistent(actions);
    ResetsAreSingleUse(actions, id);
    hide HashesAreSound, Exclusive;
    if s.resets[id].used {
      var c :| c in s.confirms && s.confirms[c].Confirmed? && s.confirms[c].id == id;
      assert ConfirmKnows(s, c, s.confirms[c]);
      assert Held(s, s.confirms[c].user, s.confirms[c].hash) && MadeFor(s, s.confirms[c].hash, id);
    }
  }

  /** And it was one hash, of one account, the one the reset names. */
  lemma {:induction false} OneWritePerReset(actions: seq<Action>, id: nat, u: nat, g: Hash, v: nat, h: Hash)
    requires var s := Run(actions);
             id in s.resets && Held(s, u, g) && Held(s, v, h) && MadeFor(s, g, id) && MadeFor(s, h, id)
    ensures u == v == Run(actions).resets[id].user && g == h
  {
    hide Run, Next;
    RunsPairOff(actions);
    ResetsAreSingleUse(actions, id);
    assert Owned(Run(actions), u, g) && Owned(Run(actions), v, h);
  }

  /** No account ever holds a confirmation's hash without a spent reset of its own. */
  lemma {:induction false} EveryWriteSpendsAReset(actions: seq<Action>, user: nat, hash: Hash)
    requires Held(Run(actions), user, hash) && hash.maker.Confirmation?
    ensures var s := Run(actions);
            exists id :: id in s.resets && MadeFor(s, hash, id) && s.resets[id].used && s.resets[id].user == user
  {
    hide Run, Next, HashesAreSound, Exclusive;
    var s := Run(actions);
    RunsPairOff(actions);
    RunsAreConsistent(actions);
    assert Owned(s, user, hash);
    var c := hash.maker.c;
    assert ConfirmKnows(s, c, s.confirms[c]);
    assert MadeFor(s, hash, s.confirms[c].id);
  }
}
