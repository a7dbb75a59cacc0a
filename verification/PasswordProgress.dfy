/** What is not held up gets done: logins that rehash and confirmations that
    commit, in the runs of module Passwords. */
module PasswordProgress {
  import opened Passwords

  // -------------------------------------------------------------- one login

  /** A compare-and-set lands exactly when the account is live, no confirmation
      holds it and its hash is still the one the login read. */
  lemma SwapWritesIff(s: State, l: nat)
    requires l in s.logins && s.logins[l].HasRehashed?
    ensures var p, s' := s.logins[l], Next(s, Swap(l));
            && l in s'.logins
            && (s'.logins[l].Won? <==>
                  && !UserLocked(s, p.user) && p.user in s.users
                  && s.users[p.user].live && s.users[p.user].hash == p.from)
            && s'.users == if s'.logins[l].Won? then s.users[p.user := User(p.to, true)] else s.users
  {
    hide UserLocked;
  }

  lemma SameConfirmsSameLocks(s: State, s': State)
    requires s'.confirms == s.confirms
    ensures forall user :: UserLocked(s', user) <==> UserLocked(s, user)
  {
  }

  /** A login that has hashed: what it read, and the hash it made. */
  lemma ReadAndHashed(s: State, l: nat, user: nat, password: string)
    requires l !in s.logins
    ensures var s' := Next(Next(s, Login(l, user, password)), Rehash(l));
            && l in s'.logins && s' == s.(logins := s'.logins)
            && s'.logins[l] ==
               if user in s.users && s.users[user].live && Verifies(s.users[user].hash, password)
                  && s.users[user].hash.cost < s.cost
               then HasRehashed(user, s.users[user].hash, Hash(password, s.cost, Rehashing(l)))
               else Left
  {
  }

  /** Read, rehashed and written without interruption, a login leaves the account a
      hash of its own, of the same password at today's cost, exactly when the
      password verified, the hash was made cheaper and nothing held the account. */
  lemma UndisturbedLogin(s: State, l: nat, user: nat, password: string)
    requires l !in s.logins
    ensures var s' := Next(Next(Next(s, Login(l, user, password)), Rehash(l)), Swap(l));
            && l in s'.logins
            && (s'.logins[l].Won? <==>
                  && user in s.users && s.users[user].live && Verifies(s.users[user].hash, password)
                  && s.users[user].hash.cost < s.cost && !UserLocked(s, user))
            && s'.users == if s'.logins[l].Won?
                           then s.users[user := User(Hash(password, s.cost, Rehashing(l)), true)] else s.users
  {
    hide UserLocked, Verifies;
    var hashed := Next(Next(s, Login(l, user, password)), Rehash(l));
    ReadAndHashed(s, l, user, password);
    SameConfirmsSameLocks(s, hashed);
    if hashed.logins[l].HasRehashed? {
      SwapWritesIff(hashed, l);
    } else {
      LeftStays(hashed, l);
    }
  }

  lemma LeftStays(s: State, l: nat)
    requires l in s.logins && s.logins[l].Left?
    ensures Next(s, Swap(l)) == s
  {
  }

  // ------------------------------------------------------------ over a run

  lemma RunStep(actions: seq<Action>, a: Action)
    ensures Run(actions + [a]) == Next(Run(actions), a)
  {
    assert (actions + [a])[..|actions|] == actions;
  }

  lemma RunMore(actions: seq<Action>, more: seq<Action>)
    requires more != []
    ensures Run(actions + more) == Next(Run(actions + more[..|more| - 1]), more[|more| - 1])
  {
    hide Run, Next;
    assert actions + more == actions + more[..|more| - 1] + [more[|more| - 1]];
    RunStep(actions + more[..|more| - 1], more[|more| - 1]);
  }

  /** Where a login with a hash of its own can go from there. */
  predicate Carries(s: State, l: nat, user: nat, from: Hash, to: Hash) {
    l in s.logins && s.logins[l] in {HasRehashed(user, from, to), Won(user, from, to), Left}
  }

  lemma StepCarries(s: State, a: Action, l: nat, user: nat, from: Hash, to: Hash)
    requires Carries(s, l, user, from, to)
    ensures Carries(Next(s, a), l, user, from, to)
    ensures s.logins[l].Won? ==> Next(s, a).logins[l] == s.logins[l]
  {
    hide UserLocked, ResetLocked, IsUsable, Verifies;
  }

  /** What a login writes, whenever it does, is the hash it made when it hashed: of
      the password it verified, at the cost of that moment. */
  lemma {:induction false} RehashKeepsItsHash(actions: seq<Action>, l: nat, more: seq<Action>)
    requires l in Run(actions).logins && Run(actions).logins[l].HasRead?
    ensures var s := Run(actions);
            var p := s.logins[l];
            Carries(Run(actions + [Rehash(l)] + more), l, p.user, p.from,
                    Hash(p.from.password, s.cost, Rehashing(l)))
  {
    hide Run, Next, Carries;
    var start := actions + [Rehash(l)];
    if more == [] {
      assert start + more == start;
      RunStep(actions, Rehash(l));
      RehashingCarries(Run(actions), l);
    } else {
      RehashKeepsItsHash(actions, l, more[..|more| - 1]);
      RunMore(start, more);
      var s := Run(actions);
      StepCarries(Run(start + more[..|more| - 1]), more[|more| - 1], l, s.logins[l].user, s.logins[l].from,
                  Hash(s.logins[l].from.password, s.cost, Rehashing(l)));
    }
  }

  lemma RehashingCarries(s: State, l: nat)
    requires l in s.logins && s.logins[l].HasRead?
    ensures var p := s.logins[l];
            Carries(Next(s, Rehash(l)), l, p.user, p.from, Hash(p.from.password, s.cost, Rehashing(l)))
  {
  }

  /** A rehash is only ever tried to make a hash dearer. */
  predicate Dearer(s: State, phase: LoggingIn) {
    && (phase.HasRead? ==> phase.from.cost < s.cost)
    && (phase.HasRehashed? || phase.Won? ==> phase.from.cost < phase.to.cost <= s.cost)
  }

  lemma StepKeepsDearer(s: State, a: Action)
    requires forall l :: l in s.logins ==> Dearer(s, s.logins[l])
    ensures var s' := Next(s, a); forall l :: l in s'.logins ==> Dearer(s', s'.logins[l])
  {
    hide UserLocked, ResetLocked, IsUsable, Verifies;
  }

  lemma {:induction false} RehashesAreDearer(actions: seq<Action>, l: nat)
    requires l in Run(actions).logins
    ensures Dearer(Run(actions), Run(actions).logins[l])
  {
    AllAreDearer(actions);
  }

  lemma {:induction false} AllAreDearer(actions: seq<Action>)
    ensures forall l :: l in Run(actions).logins ==> Dearer(Run(actions), Run(actions).logins[l])
  {
    if actions != [] {
      hide Next, Dearer;
      AllAreDearer(actions[..|actions| - 1]);
      StepKeepsDearer(Run(actions[..|actions| - 1]), actions[|actions| - 1]);
    }
  }

  // ----------------------------------------------------------- racing logins

  /** The account is masked, or a confirmation commits to it. */
  predicate Disturbs(s: State, a: Action, user: nat) {
    || (a.Mask? && a.user == user)
    || (a.Commit? && a.c in s.confirms && s.confirms[a.c].Written? && s.confirms[a.c].user == user)
  }

  predicate LeftAlone(actions: seq<Action>, more: seq<Action>, user: nat) {
    forall i :: 0 <= i < |more| ==> !Disturbs(Run(actions + more[..i]), more[i], user)
  }

  /** This login replaced this hash of the account. */
  predicate Wins(s: State, l: nat, user: nat, hash: Hash) {
    l in s.logins && s.logins[l].Won? && s.logins[l].user == user && s.logins[l].from == hash
  }

  ghost predicate Replaced(s: State, user: nat, hash: Hash) {
    exists l :: Wins(s, l, user, hash)
  }

  ghost predicate KeptOrReplaced(s: State, user: nat, hash: Hash) {
    user in s.users && s.users[user].live && (s.users[user].hash == hash || Replaced(s, user, hash))
  }

  lemma WonStays(s: State, a: Action, l: nat)
    requires l in s.logins && s.logins[l].Won?
    ensures l in Next(s, a).logins && Next(s, a).logins[l] == s.logins[l]
  {
    StepCarries(s, a, l, s.logins[l].user, s.logins[l].from, s.logins[l].to);
  }

  lemma ReplacedStays(s: State, a: Action, user: nat, hash: Hash)
    requires Replaced(s, user, hash)
    ensures Replaced(Next(s, a), user, hash)
  {
    hide Next;
    var l :| Wins(s, l, user, hash);
    WonStays(s, a, l);
    assert Wins(Next(s, a), l, user, hash);
  }

  lemma QuietStepKeeps(s: State, a: Action, user: nat, hash: Hash)
    requires KeptOrReplaced(s, user, hash) && !Disturbs(s, a, user)
    ensures KeptOrReplaced(Next(s, a), user, hash)
  {
    if a.Swap? && a.l in s.logins && s.logins[a.l].HasRehashed? {
      SwapWritesIff(s, a.l);
      SwapRecords(s, a.l);
      hide Next, UserLocked;
      var p := s.logins[a.l];
      var s' := Next(s, a);
      if Replaced(s, user, hash) {
        ReplacedStays(s, a, user, hash);
      } else if s'.logins[a.l].Won? && p.user == user {
        assert Wins(s', a.l, user, hash);
      }
    } else {
      hide Replaced, UserLocked, ResetLocked, Verifies, IsUsable;
      QuietRowsStay(s, a, user);
      if Replaced(s, user, hash) {
        ReplacedStays(s, a, user, hash);
      }
    }
  }

  lemma SwapRecords(s: State, l: nat)
    requires l in s.logins && s.logins[l].HasRehashed?
    ensures var s' := Next(s, Swap(l));
            s'.logins[l].Won? ==> s'.logins[l] == Won(s.logins[l].user, s.logins[l].from, s.logins[l].to)
  {
    hide UserLocked;
  }

  lemma QuietRowsStay(s: State, a: Action, user: nat)
    requires user in s.users && !Disturbs(s, a, user)
    requires a.Swap? ==> a.l !in s.logins || !s.logins[a.l].HasRehashed?
    ensures var s' := Next(s, a); user in s'.users && s'.users[user] == s.users[user]
  {
    hide UserLocked, ResetLocked, Verifies, IsUsable;
  }

  lemma {:induction false} QuietRunKeeps(actions: seq<Action>, more: seq<Action>, user: nat)
    requires user in Run(actions).users && Run(actions).users[user].live && LeftAlone(actions, more, user)
    ensures KeptOrReplaced(Run(actions + more), user, Run(actions).users[user].hash)
  {
    hide Next, Run, KeptOrReplaced, Disturbs;
    var hash := Run(actions).users[user].hash;
    if more == [] {
      assert actions + more == actions;
      assert KeptOrReplaced(Run(actions), user, hash) by { StartsKept(Run(actions), user); }
    } else {
      var n := |more| - 1;
      forall i | 0 <= i < n ensures !Disturbs(Run(actions + more[..n][..i]), more[..n][i], user) {
        assert more[..n][..i] == more[..i];
      }
      QuietRunKeeps(actions, more[..n], user);
      RunMore(actions, more);
      QuietStepKeeps(Run(actions + more[..n]), more[n], user, hash);
    }
  }

  lemma StartsKept(s: State, user: nat)
    requires user in s.users && s.users[user].live
    ensures KeptOrReplaced(s, user, s.users[user].hash)
  {
  }

  lemma {:induction false} ReplacedForGood(actions: seq<Action>, rest: seq<Action>, user: nat, hash: Hash)
    requires Replaced(Run(actions), user, hash)
    ensures Replaced(Run(actions + rest), user, hash)
  {
    hide Next, Run, Replaced;
    if rest == [] {
      assert actions + rest == actions;
    } else {
      ReplacedForGood(actions, rest[..|rest| - 1], user, hash);
      RunMore(actions, rest);
      ReplacedStays(Run(actions + rest[..|rest| - 1]), rest[|rest| - 1], user, hash);
    }
  }

  /** Of any number of rehashes that read one hash of an account, with nothing else
      writing to it, exactly one wins once one of them is not held up. */
  lemma ExactlyOneRehashWins(actions: seq<Action>, user: nat, more: seq<Action>, l: nat, rest: seq<Action>)
    requires user in Run(actions).users && Run(actions).users[user].live && LeftAlone(actions, more, user)
    requires var s := Run(actions + more);
             && l in s.logins && s.logins[l].HasRehashed? && s.logins[l].user == user
             && s.logins[l].from == Run(actions).users[user].hash && !UserLocked(s, user)
    ensures var s, hash := Run(actions + more + [Swap(l)] + rest), Run(actions).users[user].hash;
            exists m :: Wins(s, m, user, hash) && forall k :: Wins(s, k, user, hash) ==> k == m
  {
    hide Next, Run, UserLocked, KeptOrReplaced, LeftAlone;
    var hash := Run(actions).users[user].hash;
    QuietRunKeeps(actions, more, user);
    RunStep(actions + more, Swap(l));
    UnblockedSwapReplaces(Run(actions + more), l, user, hash);
    ReplacedForGood(actions + more + [Swap(l)], rest, user, hash);
    var all := actions + more + [Swap(l)] + rest;
    var m :| Wins(Run(all), m, user, hash);
    forall k | Wins(Run(all), k, user, hash) ensures k == m {
      OneRehashWins(all, k, m);
    }
  }

  lemma UnblockedSwapReplaces(s: State, l: nat, user: nat, hash: Hash)
    requires KeptOrReplaced(s, user, hash) && !UserLocked(s, user)
    requires l in s.logins && s.logins[l].HasRehashed? && s.logins[l].user == user && s.logins[l].from == hash
    ensures Replaced(Next(s, Swap(l)), user, hash)
  {
    if Replaced(s, user, hash) {
      ReplacedStays(s, Swap(l), user, hash);
    } else {
      SwapWritesIff(s, l);
      SwapRecords(s, l);
      hide Next;
      assert Wins(Next(s, Swap(l)), l, user, hash);
    }
  }

  // ------------------------------------------------------- one confirmation

  /** The row is open, its account is live, and no other transaction holds either. */
  predicate CanConfirm(s: State, token: nat, read: nat) {
    && token in s.resets && IsUsable(s.resets[token], read) && !ResetLocked(s, token)
    && s.resets[token].user in s.users && s.users[s.resets[token].user].live
    && !UserLocked(s, s.resets[token].user)
  }

  lemma LocksOfOthers(s: State, c: nat, phase: Confirming)
    requires c !in s.confirms
    ensures !phase.Stamped? && !phase.Written? ==>
              forall id :: ResetLocked(Confirm(s, c, phase), id) <==> ResetLocked(s, id)
    ensures !phase.Written? ==> forall user :: UserLocked(Confirm(s, c, phase), user) <==> UserLocked(s, user)
  {
    var s' := Confirm(s, c, phase);
    forall id | ResetLocked(s, id) ensures ResetLocked(s', id) {
      var d :| d in s.confirms && HoldsReset(s.confirms[d], id);
      assert d in s'.confirms && HoldsReset(s'.confirms[d], id);
    }
    forall user | UserLocked(s, user) ensures UserLocked(s', user) {
      var d :| d in s.confirms && HoldsUser(s.confirms[d], user);
      assert d in s'.confirms && HoldsUser(s'.confirms[d], user);
    }
  }

  /** A hash made, a transaction begun, and its row read and judged. */
  function UpToCheck(s: State, c: nat, token: nat, password: string, began: nat, read: nat): State {
    Next(Next(Next(s, HashNew(c, token, password)), Begin(c, began)), Check(c, read))
  }

  lemma Checks(s: State, c: nat, token: nat, password: string, began: nat, read: nat)
    requires c !in s.confirms
    ensures var hash := Hash(password, s.cost, Confirmation(c));
            UpToCheck(s, c, token, password, began, read) ==
            Confirm(s, c, if token in s.resets && IsUsable(s.resets[token], read)
                          then Checked(token, s.resets[token].user, hash, began) else Abandoned)
  {
    hide IsUsable;
  }

  lemma ConfirmTwice(s: State, c: nat, phase: Confirming, phase': Confirming)
    ensures Confirm(Confirm(s, c, phase), c, phase') == Confirm(s, c, phase')
  {
  }

  lemma Stamps(s: State, c: nat, id: nat, user: nat, hash: Hash, began: nat)
    requires c !in s.confirms && id in s.resets && IsUsable(s.resets[id], began)
    ensures Next(Confirm(s, c, Checked(id, user, hash, began)), Stamp(c)) ==
            Confirm(s, c, if ResetLocked(s, id) then Checked(id, user, hash, began) else Stamped(id, user, hash))
  {
    hide ResetLocked;
    LocksOfOthers(s, c, Checked(id, user, hash, began));
    ConfirmTwice(s, c, Checked(id, user, hash, began), Stamped(id, user, hash));
  }

  lemma Writes(s: State, c: nat, id: nat, user: nat, hash: Hash)
    requires c !in s.confirms
    ensures Next(Confirm(s, c, Stamped(id, user, hash)), Write(c)) ==
            Confirm(s, c, if UserLocked(s, user) then Stamped(id, user, hash)
                          else if user in s.users && s.users[user].live then Written(id, user, hash)
                          else Abandoned)
  {
    hide UserLocked;
    LocksOfOthers(s, c, Stamped(id, user, hash));
    ConfirmTwice(s, c, Stamped(id, user, hash), Written(id, user, hash));
    ConfirmTwice(s, c, Stamped(id, user, hash), Abandoned);
  }

  lemma Commits(s: State, c: nat, id: nat, user: nat, hash: Hash)
    requires id in s.resets && user in s.users
    ensures var s' := Next(Confirm(s, c, Written(id, user, hash)), Commit(c));
            && s'.users == s.users[user := s.users[user].(hash := hash)]
            && s'.resets == s.resets[id := s.resets[id].(used := true)]
            && c in s'.confirms && s'.confirms[c] == Confirmed(id, user, hash)
            && s'.chosen == s.chosen[user := hash.password]
  {
  }

  /** No statement but the commit of a written phase moves an unready confirmation. */
  lemma Waits(s: State, c: nat, phase: Confirming)
    ensures !phase.Stamped? ==> Next(Confirm(s, c, phase), Write(c)) == Confirm(s, c, phase)
    ensures !phase.Written? ==> Next(Confirm(s, c, phase), Commit(c)) == Confirm(s, c, phase)
    ensures phase.Abandoned? ==> Next(Confirm(s, c, phase), Stamp(c)) == Confirm(s, c, phase)
  {
  }

  function AfterConfirmation(s: State, c: nat, token: nat, password: string, began: nat, read: nat): State {
    Next(Next(Next(UpToCheck(s, c, token, password, began, read), Stamp(c)), Write(c)), Commit(c))
  }

  /** Hashed, begun, checked, stamped, written and committed without interruption, a
      confirmation of an open reset of a live account, neither held by another, puts
      the new password's hash in place and spends the reset; any other changes no
      account and no reset. */
  lemma UndisturbedConfirmation(s: State, c: nat, token: nat, password: string, began: nat, read: nat)
    requires c !in s.confirms && began <= read
    ensures var s' := AfterConfirmation(s, c, token, password, began, read);
            && c in s'.confirms
            && (s'.confirms[c].Confirmed? <==> CanConfirm(s, token, read))
            && (s'.confirms[c].Confirmed? ==>
                  && var user := s.resets[token].user;
                  && s'.users == s.users[user := User(Hash(password, s.cost, Confirmation(c)), true)]
                  && s'.resets == s.resets[token := s.resets[token].(used := true)]
                  && s'.chosen == s.chosen[user := password])
            && (!s'.confirms[c].Confirmed? ==> s'.users == s.users && s'.resets == s.resets && s'.chosen == s.chosen)
  {
    hide Next, ResetLocked, UserLocked, UpToCheck;
    var hash := Hash(password, s.cost, Confirmation(c));
    Checks(s, c, token, password, began, read);
    Waits(s, c, Abandoned);
    if token in s.resets && IsUsable(s.resets[token], read) {
      var user := s.resets[token].user;
      Stamps(s, c, token, user, hash, began);
      Writes(s, c, token, user, hash);
      Waits(s, c, Checked(token, user, hash, began));
      Waits(s, c, Stamped(token, user, hash));
      if user in s.users {
        Commits(s, c, token, user, hash);
      }
    }
  }
}
