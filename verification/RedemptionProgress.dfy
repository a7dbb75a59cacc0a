/** What is not held up gets done: a redemption whose statements run without
    interruption, in the runs of module Invitations. */
module RedemptionProgress {
  import opened Results
  import opened Invitations

  /** The row is open, no other transaction has stamped it, and its address belongs
      to no account, committed or about to be. */
  predicate CanRedeem(s: State, token: nat, read: nat) {
    && token in s.rows && IsUsable(s.rows[token], read) && !Locked(s, token)
    && !Taken(s, s.rows[token].email) && !Pending(s, s.rows[token].email)
  }

  lemma OthersOf(s: State, tx: nat, phase: Phase)
    requires tx !in s.txs && !phase.Inserted?
    ensures !phase.Stamped? ==> forall id :: Locked(Move(s, tx, phase), id) <==> Locked(s, id)
    ensures forall email :: Pending(Move(s, tx, phase), email) <==> Pending(s, email)
    ensures forall email :: Taken(Move(s, tx, phase), email) <==> Taken(s, email)
  {
    hide Lower;
    var s' := Move(s, tx, phase);
    forall id | Locked(s, id) ensures Locked(s', id) {
      var t :| t in s.txs && Holds(s.txs[t], id);
      assert t in s'.txs && Holds(s'.txs[t], id);
    }
    forall email | Pending(s, email) ensures Pending(s', email) {
      var t :| t in s.txs && s.txs[t].Inserted? && Lower(s.txs[t].email) == Lower(email);
      assert t in s'.txs && s'.txs[t].Inserted?;
    }
    forall email ensures Taken(s', email) <==> Taken(s, email) {
      TakenDependsOnAccounts(s, s', email);
    }
  }

  lemma MoveTwice(s: State, tx: nat, phase: Phase, phase': Phase)
    ensures Move(Move(s, tx, phase), tx, phase') == Move(s, tx, phase')
  {
  }

  function UpToRead(s: State, tx: nat, token: nat, began: nat, read: nat): State {
    Next(Next(s, Begin(tx, token, began)), Read(tx, read))
  }

  lemma Reads(s: State, tx: nat, token: nat, began: nat, read: nat)
    requires tx !in s.txs
    ensures UpToRead(s, tx, token, began, read) ==
            Move(s, tx, if token in s.rows && IsUsable(s.rows[token], read)
                        then Checked(token, began, s.rows[token].email, s.rows[token].role) else RolledBack)
  {
    hide IsUsable;
  }

  lemma Stamps(s: State, tx: nat, id: nat, began: nat, email: string, role: string)
    requires tx !in s.txs && id in s.rows && IsUsable(s.rows[id], began)
    ensures Next(Move(s, tx, Checked(id, began, email, role)), Stamp(tx)) ==
            Move(s, tx, if Locked(s, id) then Checked(id, began, email, role) else Stamped(id, email, role))
  {
    hide Locked, IsUsable;
    OthersOf(s, tx, Checked(id, began, email, role));
    MoveTwice(s, tx, Checked(id, began, email, role), Stamped(id, email, role));
  }

  lemma Inserts(s: State, tx: nat, id: nat, email: string, role: string)
    requires tx !in s.txs
    ensures Next(Move(s, tx, Stamped(id, email, role)), Insert(tx)) ==
            Move(s, tx, if Pending(s, email) then Stamped(id, email, role)
                        else if Taken(s, email) then RolledBack else Inserted(id, email, role))
  {
    hide Pending, Taken;
    OthersOf(s, tx, Stamped(id, email, role));
    MoveTwice(s, tx, Stamped(id, email, role), Inserted(id, email, role));
    MoveTwice(s, tx, Stamped(id, email, role), RolledBack);
  }

  lemma Commits(s: State, tx: nat, id: nat, email: string, role: string)
    requires id in s.rows
    ensures var s' := Next(Move(s, tx, Inserted(id, email, role)), Commit(tx));
            && s'.rows == s.rows[id := s.rows[id].(accepted := true)]
            && s'.accounts == s.accounts[Redeemed(tx) := Account(Some(id), email, role, true)]
            && tx in s'.txs && s'.txs[tx] == Committed(id)
  {
  }

  lemma Waits(s: State, tx: nat, phase: Phase)
    ensures !phase.Checked? ==> Next(Move(s, tx, phase), Stamp(tx)) == Move(s, tx, phase)
    ensures !phase.Stamped? ==> Next(Move(s, tx, phase), Insert(tx)) == Move(s, tx, phase)
    ensures !phase.Inserted? ==> Next(Move(s, tx, phase), Commit(tx)) == Move(s, tx, phase)
  {
  }

  function AfterRedemption(s: State, tx: nat, token: nat, began: nat, read: nat): State {
    Next(Next(Next(UpToRead(s, tx, token, began, read), Stamp(tx)), Insert(tx)), Commit(tx))
  }

  /** Begun, read, stamped, inserted and committed without interruption, a redemption
      creates the account its invitation promises exactly when the row is open, its
      address is free and no other transaction holds either; any other changes no row
      and no account. */
  lemma UndisturbedRedemption(s: State, tx: nat, token: nat, began: nat, read: nat)
    requires tx !in s.txs && began <= read
    ensures var s' := AfterRedemption(s, tx, token, began, read);
            && tx in s'.txs
            && (s'.txs[tx].Committed? <==> CanRedeem(s, token, read))
            && (s'.txs[tx].Committed? ==>
                  && var row := s.rows[token];
                  && s'.rows == s.rows[token := row.(accepted := true)]
                  && s'.accounts == s.accounts[Redeemed(tx) := Account(Some(token), row.email, row.role, true)])
            && (!s'.txs[tx].Committed? ==> s'.rows == s.rows && s'.accounts == s.accounts)
  {
    hide Next, Locked, Taken, Pending, UpToRead;
    Reads(s, tx, token, began, read);
    Waits(s, tx, RolledBack);
    if token in s.rows && IsUsable(s.rows[token], read) {
      var row := s.rows[token];
      Stamps(s, tx, token, began, row.email, row.role);
      Waits(s, tx, Checked(token, began, row.email, row.role));
      Inserts(s, tx, token, row.email, row.role);
      Waits(s, tx, Stamped(token, row.email, row.role));
      Commits(s, tx, token, row.email, row.role);
    }
  }
}
