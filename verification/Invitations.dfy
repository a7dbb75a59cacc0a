/** Redeeming invitations under every interleaving of their SQL statements.

    Transactions run at READ COMMITTED: a statement sees what is committed, an
    UPDATE locks the rows it changes until its transaction ends and judges its
    WHERE clause on the version it then holds, and an INSERT waits for another
    uncommitted row with the same unique value. A step that would wait changes
    nothing; it may be tried again. */
module Invitations {
  import opened Results

  /** Token digests are unique, so one number stands for a row and its link. */
  datatype Invitation = Invitation(email: string, role: string, expiresAt: nat, accepted: bool)

  datatype AccountId = Seeded(n: nat) | Redeemed(tx: nat)

  /** `origin` is bookkeeping: which invitation the account was created from. */
  datatype Account = Account(origin: Option<nat>, email: string, role: string, live: bool)

  /** How far one redemption's transaction has come. */
  datatype Phase =
    | Begun(token: nat, startedAt: nat)
    | Checked(id: nat, startedAt: nat, email: string, role: string)
    | Stamped(id: nat, email: string, role: string)
    | Inserted(id: nat, email: string, role: string)
    | Committed(id: nat)
    | RolledBack

  datatype State = State(rows: map<nat, Invitation>, accounts: map<AccountId, Account>, txs: map<nat, Phase>)

  datatype Action =
    | Begin(tx: nat, token: nat, now: nat)
    | Read(tx: nat, now: nat)
    | Stamp(tx: nat)
    | Insert(tx: nat)
    | Commit(tx: nat)
    | Rollback(tx: nat)
    | Invite(id: nat, email: string, role: string, expiresAt: nat)
    | Expire(id: nat, now: nat)
    | Seed(n: nat, email: string, role: string)
    | Mask(account: AccountId)

  function Lower(s: string): string {
    seq(|s|, i requires 0 <= i < |s| => if 'A' <= s[i] <= 'Z' then (s[i] as int + 32) as char else s[i])
  }

  predicate SameLetter(c: char, d: char) {
    || c == d
    || ('A' <= c <= 'Z' && d as int - 'a' as int == c as int - 'A' as int)
    || ('A' <= d <= 'Z' && c as int - 'a' as int == d as int - 'A' as int)
  }

  /** Two addresses are one exactly when they differ at most in the case of letters. */
  lemma LowerAgreesIff(a: string, b: string)
    ensures Lower(a) == Lower(b) <==> |a| == |b| && forall i :: 0 <= i < |a| ==> SameLetter(a[i], b[i])
  {
    forall i | 0 <= i < |a| && |a| == |b| ensures Lower(a)[i] == Lower(b)[i] <==> SameLetter(a[i], b[i]) {
    }
    assert Lower(a) == Lower(b) ==> |a| == |b|;
  }

  predicate IsExpired(row: Invitation, now: nat) {
    row.expiresAt <= now
  }

  predicate IsUsable(row: Invitation, now: nat) {
    !row.accepted && !IsExpired(row, now)
  }

  predicate Holds(phase: Phase, id: nat) {
    (phase.Stamped? || phase.Inserted?) && phase.id == id
  }

  /** Some transaction has stamped the row and has not ended. */
  predicate Locked(s: State, id: nat) {
    exists tx :: tx in s.txs && Holds(s.txs[tx], id)
  }

  /** An account that is committed and live owns the address. */
  predicate Taken(s: State, email: string) {
    exists a :: a in s.accounts && s.accounts[a].live && Lower(s.accounts[a].email) == Lower(email)
  }

  /** Another transaction has inserted the address and has not ended. */
  predicate Pending(s: State, email: string) {
    exists tx :: tx in s.txs && s.txs[tx].Inserted? && Lower(s.txs[tx].email) == Lower(email)
  }

  // ----------------------------------------------------------------- steps

  function Move(s: State, tx: nat, phase: Phase): State {
    s.(txs := s.txs[tx := phase])
  }

  /** SELECT by token digest, then the check in Go. */
  function ReadStep(s: State, tx: nat, phase: Phase, now: nat): State
    requires phase.Begun?
  {
    if phase.token in s.rows && IsUsable(s.rows[phase.token], now) then
      var row := s.rows[phase.token];
      Move(s, tx, Checked(phase.token, phase.startedAt, row.email, row.role))
    else Move(s, tx, RolledBack)
  }

  /** UPDATE ... WHERE id = $1 AND accepted_at IS NULL AND expires_at > now():
      now() is when the transaction started. */
  function StampStep(s: State, tx: nat, phase: Phase): State
    requires phase.Checked?
  {
    if Locked(s, phase.id) then s
    else if phase.id in s.rows && IsUsable(s.rows[phase.id], phase.startedAt) then
      Move(s, tx, Stamped(phase.id, phase.email, phase.role))
    else Move(s, tx, RolledBack)
  }

  /** INSERT INTO users, under the unique index on lower(email) of live rows. */
  function InsertStep(s: State, tx: nat, phase: Phase): State
    requires phase.Stamped?
  {
    if Pending(s, phase.email) then s
    else if Taken(s, phase.email) then Move(s, tx, RolledBack)
    else Move(s, tx, Inserted(phase.id, phase.email, phase.role))
  }

  /** Commit publishes the stamp and the account together. */
  function CommitStep(s: State, tx: nat, phase: Phase): State
    requires phase.Inserted?
  {
    if phase.id !in s.rows then s
    else
      State(s.rows[phase.id := s.rows[phase.id].(accepted := true)],
            s.accounts[Redeemed(tx) := Account(Some(phase.id), phase.email, phase.role, true)],
            s.txs[tx := Committed(phase.id)])
  }

  function Next(s: State, a: Action): State {
    match a
    case Begin(tx, token, now) => if tx in s.txs then s else Move(s, tx, Begun(token, now))
    case Read(tx, now) => if tx in s.txs && s.txs[tx].Begun? then ReadStep(s, tx, s.txs[tx], now) else s
    case Stamp(tx) => if tx in s.txs && s.txs[tx].Checked? then StampStep(s, tx, s.txs[tx]) else s
    case Insert(tx) => if tx in s.txs && s.txs[tx].Stamped? then InsertStep(s, tx, s.txs[tx]) else s
    case Commit(tx) => if tx in s.txs && s.txs[tx].Inserted? then CommitStep(s, tx, s.txs[tx]) else s
    case Rollback(tx) => if tx in s.txs && !s.txs[tx].Committed? then Move(s, tx, RolledBack) else s
    case Invite(id, email, role, expiresAt) =>
      if id in s.rows then s else s.(rows := s.rows[id := Invitation(email, role, expiresAt, false)])
    case Expire(id, now) =>
      if id in s.rows && IsUsable(s.rows[id], now) && !Locked(s, id)
      then s.(rows := s.rows[id := s.rows[id].(expiresAt := now)]) else s
    case Seed(n, email, role) =>
      if Seeded(n) in s.accounts || Taken(s, email) || Pending(s, email) then s
      else s.(accounts := s.accounts[Seeded(n) := Account(None, email, role, true)])
    case Mask(account) =>
      if account in s.accounts && s.accounts[account].live
      then s.(accounts := s.accounts[account := s.accounts[account].(live := false, email := "deleted")]) else s
  }

  function Run(actions: seq<Action>): State {
    if actions == [] then State(map[], map[], map[])
    else Next(Run(actions[..|actions| - 1]), actions[|actions| - 1])
  }

  // ------------------------------------------------------------- invariant

  /** What a transaction knows of its row is what the row still says. */
  predicate KnowsItsRow(rows: map<nat, Invitation>, phase: Phase) {
    match phase
    case Checked(id, _, email, role) => id in rows && rows[id].email == email && rows[id].role == role
    case Stamped(id, email, role) =>
      id in rows && rows[id].email == email && rows[id].role == role && !rows[id].accepted
    case Inserted(id, email, role) =>
      id in rows && rows[id].email == email && rows[id].role == role && !rows[id].accepted
    case _ => true
  }

  /** A stamped row has one holder until its transaction ends. */
  ghost predicate LocksHold(s: State) {
    && (forall t :: t in s.txs ==> KnowsItsRow(s.rows, s.txs[t]))
    && (forall t, u ::
          t in s.txs && u in s.txs && t != u && (s.txs[t].Stamped? || s.txs[t].Inserted?) ==>
            !Holds(s.txs[u], s.txs[t].id))
  }

  /** An account from an invitation has its role and, while live, its address. */
  predicate FromItsInvitation(rows: map<nat, Invitation>, account: Account) {
    account.origin.Some? ==>
      var id := account.origin.value;
      && id in rows && rows[id].accepted && account.role == rows[id].role
      && (account.live ==> account.email == rows[id].email)
  }

  predicate Backed(accounts: map<AccountId, Account>, id: nat) {
    exists a :: a in accounts && accounts[a].origin == Some(id)
  }

  /** A transaction has an account exactly when it committed. */
  predicate CommittedIsVisible(s: State, tx: nat) {
    if tx in s.txs && s.txs[tx].Committed? then
      Redeemed(tx) in s.accounts && s.accounts[Redeemed(tx)].origin == Some(s.txs[tx].id)
    else Redeemed(tx) !in s.accounts
  }

  /** Committed stamps and the accounts they created pair off one to one. */
  ghost predicate StampsPairOff(s: State) {
    && (forall a :: a in s.accounts ==> FromItsInvitation(s.rows, s.accounts[a]))
    && (forall a, b ::
          a in s.accounts && b in s.accounts && a != b && s.accounts[a].origin.Some? ==>
            s.accounts[a].origin != s.accounts[b].origin)
    && (forall id :: id in s.rows && s.rows[id].accepted ==> Backed(s.accounts, id))
    && (forall tx :: CommittedIsVisible(s, tx))
  }

  /** No two live accounts, committed or about to be, share an address. */
  ghost predicate OneLivePerAddress(s: State) {
    && (forall a, b ::
          a in s.accounts && b in s.accounts && a != b && s.accounts[a].live && s.accounts[b].live ==>
            Lower(s.accounts[a].email) != Lower(s.accounts[b].email))
    && (forall t :: t in s.txs && s.txs[t].Inserted? ==> !Taken(s, s.txs[t].email))
    && (forall t, u ::
          t in s.txs && u in s.txs && t != u && s.txs[t].Inserted? && s.txs[u].Inserted? ==>
            Lower(s.txs[t].email) != Lower(s.txs[u].email))
  }

  ghost predicate Consistent(s: State) {
    LocksHold(s) && StampsPairOff(s) && OneLivePerAddress(s)
  }

  // ------------------------------------------------------ what moves keep

  predicate Open(s: State, tx: nat) {
    tx !in s.txs || !s.txs[tx].Committed?
  }

  lemma MoveKeepsLocks(s: State, tx: nat, phase: Phase)
    requires LocksHold(s) && KnowsItsRow(s.rows, phase)
    requires phase.Stamped? || phase.Inserted? ==>
               forall u :: u in s.txs && u != tx ==> !Holds(s.txs[u], phase.id)
    ensures LocksHold(Move(s, tx, phase))
  {
    hide KnowsItsRow;
  }

  lemma MoveKeepsPairs(s: State, tx: nat, phase: Phase)
    requires StampsPairOff(s) && Open(s, tx) && !phase.Committed?
    ensures StampsPairOff(Move(s, tx, phase))
  {
    hide FromItsInvitation, Backed;
    forall t ensures CommittedIsVisible(Move(s, tx, phase), t) {
      assert CommittedIsVisible(s, t);
    }
  }

  lemma MoveKeepsAddresses(s: State, tx: nat, phase: Phase)
    requires OneLivePerAddress(s)
    requires phase.Inserted? ==>
               && !Taken(s, phase.email)
               && forall u :: u in s.txs && u != tx && s.txs[u].Inserted? ==>
                    Lower(s.txs[u].email) != Lower(phase.email)
    ensures OneLivePerAddress(Move(s, tx, phase))
  {
    hide Lower, Taken;
    var s' := Move(s, tx, phase);
    forall email ensures Taken(s', email) == Taken(s, email) {
      TakenDependsOnAccounts(s, s', email);
    }
  }

  lemma TakenDependsOnAccounts(s: State, s': State, email: string)
    requires s.accounts == s'.accounts
    ensures Taken(s', email) == Taken(s, email)
  {
    hide Lower;
  }

  lemma MoveKeepsAll(s: State, tx: nat, phase: Phase)
    requires Consistent(s) && Open(s, tx) && !phase.Committed? && KnowsItsRow(s.rows, phase)
    requires phase.Stamped? || phase.Inserted? ==>
               forall u :: u in s.txs && u != tx ==> !Holds(s.txs[u], phase.id)
    requires phase.Inserted? ==> !Taken(s, phase.email)
    requires phase.Inserted? ==>
               forall u :: u in s.txs && u != tx && s.txs[u].Inserted? ==> Lower(s.txs[u].email) != Lower(phase.email)
    ensures Consistent(Move(s, tx, phase))
  {
    hide LocksHold, StampsPairOff, OneLivePerAddress, Lower, Taken, KnowsItsRow, Move;
    MoveKeepsLocks(s, tx, phase);
    MoveKeepsPairs(s, tx, phase);
    MoveKeepsAddresses(s, tx, phase);
  }

  // ----------------------------------------------------------- every step

  lemma StampIsConsistent(s: State, tx: nat)
    requires Consistent(s) && tx in s.txs && s.txs[tx].Checked?
    ensures Consistent(StampStep(s, tx, s.txs[tx]))
  {
    hide StampsPairOff, OneLivePerAddress, Taken, Lower;
    var phase := s.txs[tx];
    assert KnowsItsRow(s.rows, phase);
    if !Locked(s, phase.id) {
      if phase.id in s.rows && IsUsable(s.rows[phase.id], phase.startedAt) {
        MoveKeepsAll(s, tx, Stamped(phase.id, phase.email, phase.role));
      } else {
        MoveKeepsAll(s, tx, RolledBack);
      }
    }
  }

  lemma InsertIsConsistent(s: State, tx: nat)
    requires Consistent(s) && tx in s.txs && s.txs[tx].Stamped?
    ensures Consistent(InsertStep(s, tx, s.txs[tx]))
  {
    hide StampsPairOff, OneLivePerAddress, Lower;
    var phase := s.txs[tx];
    assert KnowsItsRow(s.rows, phase);
    if !Pending(s, phase.email) {
      if Taken(s, phase.email) {
        MoveKeepsAll(s, tx, RolledBack);
      } else {
        MoveKeepsAll(s, tx, Inserted(phase.id, phase.email, phase.role));
      }
    }
  }

  lemma CommitKeepsLocks(s: State, tx: nat)
    requires LocksHold(s) && tx in s.txs && s.txs[tx].Inserted?
    ensures LocksHold(CommitStep(s, tx, s.txs[tx]))
  {
    var id := s.txs[tx].id;
    var s' := CommitStep(s, tx, s.txs[tx]);
    assert KnowsItsRow(s.rows, s.txs[tx]);
    forall t | t in s'.txs ensures KnowsItsRow(s'.rows, s'.txs[t]) {
      assert t != tx ==> KnowsItsRow(s.rows, s.txs[t]) && !Holds(s.txs[t], id);
    }
  }

  lemma CommitKeepsPairs(s: State, tx: nat)
    requires LocksHold(s) && StampsPairOff(s) && tx in s.txs && s.txs[tx].Inserted?
    ensures StampsPairOff(CommitStep(s, tx, s.txs[tx]))
  {
    var id, phase := s.txs[tx].id, s.txs[tx];
    var s' := CommitStep(s, tx, phase);
    assert KnowsItsRow(s.rows, phase);
    assert CommittedIsVisible(s, tx);
    forall a | a in s.accounts ensures s.accounts[a].origin != Some(id) && FromItsInvitation(s'.rows, s.accounts[a]) {
      assert FromItsInvitation(s.rows, s.accounts[a]);
    }
    forall i | i in s'.rows && s'.rows[i].accepted ensures Backed(s'.accounts, i) {
      if i == id {
        assert s'.accounts[Redeemed(tx)].origin == Some(id);
      } else {
        assert Backed(s.accounts, i);
        var a :| a in s.accounts && s.accounts[a].origin == Some(i);
        assert a in s'.accounts && s'.accounts[a] == s.accounts[a];
      }
    }
    forall t ensures CommittedIsVisible(s', t) {
      assert CommittedIsVisible(s, t);
    }
  }

  lemma CommitKeepsAddresses(s: State, tx: nat)
    requires OneLivePerAddress(s) && tx in s.txs && s.txs[tx].Inserted?
    ensures OneLivePerAddress(CommitStep(s, tx, s.txs[tx]))
  {
    hide Lower;
    var s' := CommitStep(s, tx, s.txs[tx]);
    var email := s.txs[tx].email;
    assert !Taken(s, email);
    forall t | t in s'.txs && s'.txs[t].Inserted? ensures !Taken(s', s'.txs[t].email) {
      assert s.txs[t] == s'.txs[t] && (t != tx ==> Lower(s.txs[t].email) != Lower(email));
      assert !Taken(s, s.txs[t].email);
    }
  }

  lemma RowChangeIsConsistent(s: State, a: Action)
    requires Consistent(s) && (a.Invite? || a.Expire?)
    ensures Consistent(Next(s, a))
  {
    hide Lower, Taken, LocksHold, StampsPairOff, Locked;
    var s' := Next(s, a);
    assert LocksHold(s') && StampsPairOff(s') by {
      RowChangeKeepsLocks(s, a);
      RowChangeKeepsPairs(s, a);
    }
    forall email ensures Taken(s', email) == Taken(s, email) {
      TakenDependsOnAccounts(s, s', email);
    }
  }

  lemma RowChangeKeepsLocks(s: State, a: Action)
    requires LocksHold(s) && (a.Invite? || a.Expire?)
    ensures LocksHold(Next(s, a))
  {
    hide Locked;
    var s' := Next(s, a);
    forall t | t in s'.txs ensures KnowsItsRow(s'.rows, s'.txs[t]) {
      assert KnowsItsRow(s.rows, s.txs[t]);
    }
  }

  lemma RowChangeKeepsPairs(s: State, a: Action)
    requires StampsPairOff(s) && (a.Invite? || a.Expire?)
    ensures StampsPairOff(Next(s, a))
  {
    hide Locked, Backed;
    var s' := Next(s, a);
    forall x | x in s'.accounts ensures FromItsInvitation(s'.rows, s'.accounts[x]) {
      assert FromItsInvitation(s.rows, s.accounts[x]);
    }
    forall t ensures CommittedIsVisible(s', t) {
      assert CommittedIsVisible(s, t);
    }
  }

  lemma SeedIsConsistent(s: State, n: nat, email: string, role: string)
    requires Consistent(s)
    ensures Consistent(Next(s, Seed(n, email, role)))
  {
    hide Lower, KnowsItsRow, FromItsInvitation, Locked;
    var s' := Next(s, Seed(n, email, role));
    if s' != s {
      assert LocksHold(s');
      SeedKeepsPairs(s, n, email, role);
      SeedKeepsAddresses(s, n, email, role);
    }
  }

  lemma SeedKeepsPairs(s: State, n: nat, email: string, role: string)
    requires StampsPairOff(s) && Seeded(n) !in s.accounts
    ensures StampsPairOff(s.(accounts := s.accounts[Seeded(n) := Account(None, email, role, true)]))
  {
    var s' := s.(accounts := s.accounts[Seeded(n) := Account(None, email, role, true)]);
    forall id | id in s'.rows && s'.rows[id].accepted ensures Backed(s'.accounts, id) {
      assert Backed(s.accounts, id);
      var a :| a in s.accounts && s.accounts[a].origin == Some(id);
      assert a in s'.accounts && s'.accounts[a].origin == Some(id);
    }
    forall t ensures CommittedIsVisible(s', t) {
      assert CommittedIsVisible(s, t);
    }
  }

  lemma SeedKeepsAddresses(s: State, n: nat, email: string, role: string)
    requires OneLivePerAddress(s) && Seeded(n) !in s.accounts && !Taken(s, email) && !Pending(s, email)
    ensures OneLivePerAddress(s.(accounts := s.accounts[Seeded(n) := Account(None, email, role, true)]))
  {
    hide Lower;
    var s' := s.(accounts := s.accounts[Seeded(n) := Account(None, email, role, true)]);
    forall t | t in s'.txs && s'.txs[t].Inserted? ensures !Taken(s', s'.txs[t].email) {
      assert !Taken(s, s.txs[t].email) && Lower(s.txs[t].email) != Lower(email);
    }
  }

  lemma MaskIsConsistent(s: State, account: AccountId)
    requires Consistent(s)
    ensures Consistent(Next(s, Mask(account)))
  {
    hide Lower, KnowsItsRow, Locked, StampsPairOff;
    var s' := Next(s, Mask(account));
    MaskKeepsPairs(s, account);
    if s' != s {
      assert LocksHold(s');
      forall email | !Taken(s, email) ensures !Taken(s', email) {
      }
    }
  }

  lemma MaskKeepsPairs(s: State, account: AccountId)
    requires StampsPairOff(s)
    ensures StampsPairOff(Next(s, Mask(account)))
  {
    var s' := Next(s, Mask(account));
    forall a | a in s'.accounts ensures FromItsInvitation(s'.rows, s'.accounts[a]) {
      assert FromItsInvitation(s.rows, s.accounts[a]);
    }
    forall id | id in s'.rows && s'.rows[id].accepted ensures Backed(s'.accounts, id) {
      assert Backed(s.accounts, id);
      var a :| a in s.accounts && s.accounts[a].origin == Some(id);
      assert a in s'.accounts && s'.accounts[a].origin == Some(id);
    }
    forall t ensures CommittedIsVisible(s', t) {
      assert CommittedIsVisible(s, t);
    }
  }

  lemma StepKeepsConsistent(s: State, a: Action)
    requires Consistent(s)
    ensures Consistent(Next(s, a))
  {
    match a
    case Begin(tx, token, now) =>
      hide Consistent;
      if tx !in s.txs { MoveKeepsAll(s, tx, Begun(token, now)); }
    case Read(tx, now) =>
      hide Consistent;
      if tx in s.txs && s.txs[tx].Begun? {
        var phase := s.txs[tx];
        if phase.token in s.rows && IsUsable(s.rows[phase.token], now) {
          var row := s.rows[phase.token];
          MoveKeepsAll(s, tx, Checked(phase.token, phase.startedAt, row.email, row.role));
        } else {
          MoveKeepsAll(s, tx, RolledBack);
        }
      }
    case Stamp(tx) =>
      hide Consistent, StampStep;
      if tx in s.txs && s.txs[tx].Checked? { StampIsConsistent(s, tx); }
    case Insert(tx) =>
      hide Consistent, InsertStep;
      if tx in s.txs && s.txs[tx].Stamped? { InsertIsConsistent(s, tx); }
    case Commit(tx) =>
      hide CommitStep, LocksHold, StampsPairOff, OneLivePerAddress;
      if tx in s.txs && s.txs[tx].Inserted? {
        CommitKeepsLocks(s, tx);
        CommitKeepsPairs(s, tx);
        CommitKeepsAddresses(s, tx);
      }
    case Rollback(tx) =>
      hide Consistent;
      if tx in s.txs && !s.txs[tx].Committed? { MoveKeepsAll(s, tx, RolledBack); }
    case Invite(_, _, _, _) => RowChangeIsConsistent(s, a);
    case Expire(_, _) => RowChangeIsConsistent(s, a);
    case Seed(n, email, role) => SeedIsConsistent(s, n, email, role);
    case Mask(account) => MaskIsConsistent(s, account);
  }

  // ------------------------------------------------------------ every run

  lemma {:induction false} RunsAreConsistent(actions: seq<Action>)
    ensures Consistent(Run(actions))
  {
    hide Next, Consistent;
    if actions == [] {
      NothingIsConsistent();
    } else {
      RunsAreConsistent(actions[..|actions| - 1]);
      StepKeepsConsistent(Run(actions[..|actions| - 1]), actions[|actions| - 1]);
    }
  }

  lemma NothingIsConsistent()
    ensures Consistent(State(map[], map[], map[]))
  {
  }

  /** In every reachable state, whatever the interleaving of statements, commits
      and rollbacks: an invitation is stamped exactly when an account was created
      from it, that account is the only one and has the invitation's role and
      (until it is masked) address, and it belongs to the one redemption of the
      invitation that committed. */
  lemma {:induction false} RedemptionsAreSingleUse(actions: seq<Action>, id: nat)
    ensures var s := Run(actions);
            && (id in s.rows && s.rows[id].accepted <==>
                    exists a :: a in s.accounts && s.accounts[a].origin == Some(id))
            && (forall a, b :: a in s.accounts && b in s.accounts && s.accounts[a].origin == Some(id) ==>
                  (s.accounts[b].origin == Some(id) ==> a == b))
            && (forall a :: a in s.accounts && s.accounts[a].origin == Some(id) ==>
                  && s.accounts[a].role == s.rows[id].role
                  && (s.accounts[a].live ==> s.accounts[a].email == s.rows[id].email))
            && (forall t, u :: t in s.txs && u in s.txs && s.txs[t] == Committed(id) ==>
                  (s.txs[u] == Committed(id) ==> t == u))
            && (forall t :: t in s.txs && s.txs[t] == Committed(id) ==>
                  Redeemed(t) in s.accounts && s.accounts[Redeemed(t)].origin == Some(id))
  {
    hide Run, LocksHold, OneLivePerAddress;
    RunsAreConsistent(actions);
    var s := Run(actions);
    if id in s.rows && s.rows[id].accepted {
      assert Backed(s.accounts, id);
    }
    forall t | t in s.txs && s.txs[t] == Committed(id)
      ensures Redeemed(t) in s.accounts && s.accounts[Redeemed(t)].origin == Some(id)
    {
      assert CommittedIsVisible(s, t);
    }
  }

  /** Nor do two live accounts ever share an address, however they were made. */
  lemma AddressesAreUnique(actions: seq<Action>, a: AccountId, b: AccountId)
    requires var s := Run(actions);
             && a in s.accounts && b in s.accounts && s.accounts[a].live && s.accounts[b].live
             && Lower(s.accounts[a].email) == Lower(s.accounts[b].email)
    ensures a == b
  {
    hide Run, Lower;
    RunsAreConsistent(actions);
  }
}
