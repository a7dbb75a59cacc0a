/** Issuing links under every interleaving of their SQL statements: what superseding
    is worth when bodies do not run one after another. Inviting an address and
    resetting an account have the same statements, and are one machine here.

    The UPDATE that ends open links judges the rows committed when it starts, and
    waits for the transactions that hold any of them before it judges them again;
    rows committed while it waits it does not see. */
module LinkRaces {
  import opened Results

  /** Whose link it is: a lower-cased address invited, or an account to reset. */
  datatype Holder = Address(lower: string) | Account(id: nat)

  /** `serial` is bookkeeping: how many rows the table had when this one came. */
  datatype Link = Link(holder: Holder, expiresAt: nat, spent: bool, serial: nat)

  /** How far one transaction has come. The row it inserts has its name. */
  datatype Issuing =
    | Begun(holder: Holder, began: nat)
    | LookedUp(holder: Holder, began: nat)
    | Expiring(holder: Holder, began: nat, seen: set<nat>)
    | Expired(holder: Holder, began: nat, held: set<nat>)
    | Inserted(holder: Holder, began: nat, held: set<nat>, expiresAt: nat)
    | Committed(holder: Holder)
    | RolledBack

  /** `barred` are the holders whose look-up ends the transaction: addresses with a
      live account, accounts without one. The last four fields are bookkeeping: how
      many steps were made, the deadline each row was given, and at which step a row
      was committed and an expire statement started. */
  datatype State = State(rows: map<nat, Link>, barred: set<Holder>, txs: map<nat, Issuing>, clock: nat,
                         steps: nat, deadline: map<nat, nat>, committedAt: map<nat, nat>, expireFrom: map<nat, nat>)

  datatype Action =
    | Begin(tx: nat, holder: Holder, now: nat)
    | LookUp(tx: nat)
    | StartExpire(tx: nat)
    | FinishExpire(tx: nat)
    | Insert(tx: nat, now: nat, window: nat)
    | Commit(tx: nat)
    | Rollback(tx: nat)
    | Bar(holder: Holder)
    | Admit(holder: Holder)

  predicate Usable(link: Link, now: nat) {
    !link.spent && now < link.expiresAt
  }

  predicate Holds(phase: Issuing, id: nat) {
    (phase.Expired? || phase.Inserted?) && id in phase.held
  }

  /** Some other transaction has ended the row's link and is still open. */
  predicate HeldElsewhere(s: State, tx: nat, id: nat) {
    exists other :: other in s.txs && other != tx && Holds(s.txs[other], id)
  }

  /** The open rows of a holder. */
  function OpenRows(rows: map<nat, Link>, holder: Holder, now: nat): set<nat> {
    set id | id in rows && rows[id].holder == holder && Usable(rows[id], now)
  }

  /** Of the rows a statement saw, those it finds open once it holds them. */
  function StillOpen(rows: map<nat, Link>, seen: set<nat>, now: nat): set<nat> {
    set id | id in seen && id in rows && Usable(rows[id], now)
  }

  function Move(s: State, tx: nat, phase: Issuing): State {
    s.(txs := s.txs[tx := phase])
  }

  function FinishStep(s: State, tx: nat, p: Issuing): State
    requires p.Expiring?
  {
    if exists id :: id in p.seen && HeldElsewhere(s, tx, id) then s
    else Move(s, tx, Expired(p.holder, p.began, StillOpen(s.rows, p.seen, p.began)))
  }

  function EndLinks(rows: map<nat, Link>, held: set<nat>, now: nat): map<nat, Link> {
    map id | id in rows :: if id in held then rows[id].(expiresAt := now) else rows[id]
  }

  /** Commit publishes the ended links and the new row together. */
  function CommitStep(s: State, tx: nat, p: Issuing): State
    requires p.Inserted?
  {
    s.(rows := EndLinks(s.rows, p.held, p.began)[tx := Link(p.holder, p.expiresAt, false, |s.rows|)],
       txs := s.txs[tx := Committed(p.holder)],
       deadline := s.deadline[tx := p.expiresAt], committedAt := s.committedAt[tx := s.steps])
  }

  function StepOf(s: State, a: Action): State {
    match a
    case Begin(tx, holder, now) =>
      if tx in s.txs || now < s.clock then s else Move(s, tx, Begun(holder, now)).(clock := now)
    case LookUp(tx) =>
      if tx in s.txs && s.txs[tx].Begun? then
        var p := s.txs[tx];
        Move(s, tx, if p.holder in s.barred then RolledBack else LookedUp(p.holder, p.began))
      else s
    case StartExpire(tx) =>
      if tx in s.txs && s.txs[tx].LookedUp? then
        var p := s.txs[tx];
        Move(s, tx, Expiring(p.holder, p.began, OpenRows(s.rows, p.holder, p.began)))
        .(expireFrom := s.expireFrom[tx := s.steps])
      else s
    case FinishExpire(tx) => if tx in s.txs && s.txs[tx].Expiring? then FinishStep(s, tx, s.txs[tx]) else s
    case Insert(tx, now, window) =>
      if tx in s.txs && s.txs[tx].Expired? && s.clock <= now then
        var p := s.txs[tx];
        Move(s, tx, Inserted(p.holder, p.began, p.held, now + window)).(clock := now)
      else s
    case Commit(tx) => if tx in s.txs && s.txs[tx].Inserted? then CommitStep(s, tx, s.txs[tx]) else s
    case Rollback(tx) => if tx in s.txs && !s.txs[tx].Committed? then Move(s, tx, RolledBack) else s
    case Bar(holder) => s.(barred := s.barred + {holder})
    case Admit(holder) => s.(barred := s.barred - {holder})
  }

  function Next(s: State, a: Action): State {
    StepOf(s, a).(steps := s.steps + 1)
  }

  const NOTHING := State(map[], {}, map[], 0, 0, map[], map[], map[])

  function Run(actions: seq<Action>): State {
    if actions == [] then NOTHING
    else Next(Run(actions[..|actions| - 1]), actions[|actions| - 1])
  }

  // ------------------------------------------------------------- invariant

  /** The row was committed before the other transaction's expire statement started. */
  predicate Precedes(s: State, a: nat, b: nat) {
    a in s.committedAt && b in s.expireFrom && s.committedAt[a] < s.expireFrom[b]
  }

  /** A transaction for the same holder that ought to have ended this row's link. */
  predicate SupersededBy(s: State, a: nat, b: nat) {
    a in s.rows && b in s.rows && a != b && s.rows[a].holder == s.rows[b].holder && Precedes(s, a, b)
  }

  predicate RowKnown(s: State, a: nat)
    requires a in s.rows
  {
    && a in s.deadline && a in s.committedAt && s.committedAt[a] < s.steps && !s.rows[a].spent
    && a in s.expireFrom && a in s.txs && s.txs[a] == Committed(s.rows[a].holder)
  }

  /** A link keeps its own deadline until a transaction that follows it commits. */
  ghost predicate OnlySuccessorsEnd(s: State, a: nat)
    requires RowsKnown(s) && a in s.rows
  {
    s.rows[a].expiresAt == s.deadline[a] || exists b :: SupersededBy(s, a, b)
  }

  predicate RowsKnown(s: State) {
    forall a :: a in s.rows ==> RowKnown(s, a)
  }

  /** Whether an open transaction will end this row's link when it commits. */
  predicate WillEnd(p: Issuing, a: nat) {
    match p
    case Expiring(_, _, seen) => a in seen
    case Expired(_, _, held) => a in held
    case Inserted(_, _, held, _) => a in held
    case _ => false
  }

  predicate PastStart(p: Issuing) {
    p.Expiring? || p.Expired? || p.Inserted? || p.Committed?
  }

  /** What a transaction means to end precedes it; what precedes it has ended or
      will end with it. */
  ghost predicate TxSound(s: State, b: nat)
    requires b in s.txs
  {
    var p := s.txs[b];
    && (!p.Committed? && !p.RolledBack? ==> p.began <= s.clock)
    && (p.Committed? ==> b in s.rows && s.rows[b].holder == p.holder)
    && (b in s.rows ==> p.Committed?)
    && (PastStart(p) ==>
          && b in s.expireFrom && s.expireFrom[b] < s.steps
          && (forall a :: WillEnd(p, a) ==> a in s.rows && s.rows[a].holder == p.holder && Precedes(s, a, b))
          && (forall a :: a in s.rows && a != b && s.rows[a].holder == p.holder && Precedes(s, a, b) ==>
                WillEnd(p, a) || s.rows[a].expiresAt <= s.clock))
  }

  ghost predicate Sound(s: State) {
    && RowsKnown(s)
    && (forall a :: a in s.rows ==> OnlySuccessorsEnd(s, a))
    && (forall b :: b in s.txs ==> TxSound(s, b))
  }

  // ------------------------------------------------------------- each step

  /** Rows and their history stand still; the clock and the step count move on. */
  predicate SameRows(s: State, s': State) {
    && s'.rows == s.rows && s'.deadline == s.deadline && s'.committedAt == s.committedAt
    && s.clock <= s'.clock && s.steps <= s'.steps
  }

  lemma OtherTxStaysSound(s: State, s': State, b: nat)
    requires SameRows(s, s') && b in s.txs && TxSound(s, b) && b in s'.txs && s'.txs[b] == s.txs[b]
    requires b in s.expireFrom ==> b in s'.expireFrom && s'.expireFrom[b] == s.expireFrom[b]
    ensures TxSound(s', b)
  {
  }

  lemma RowsStaySound(s: State, s': State)
    requires SameRows(s, s') && Sound(s)
    requires forall a :: a in s.rows ==> a in s'.txs && s'.txs[a] == s.txs[a]
    requires forall a :: a in s.rows ==> a in s'.expireFrom && s'.expireFrom[a] == s.expireFrom[a]
    ensures RowsKnown(s') && forall a :: a in s'.rows ==> OnlySuccessorsEnd(s', a)
  {
    hide TxSound;
    forall a | a in s'.rows ensures RowKnown(s', a) {
      assert RowKnown(s, a);
    }
    forall a | a in s'.rows ensures OnlySuccessorsEnd(s', a) {
      assert OnlySuccessorsEnd(s, a);
      if b :| SupersededBy(s, a, b) {
        assert RowKnown(s, b);
        assert SupersededBy(s', a, b);
      }
    }
  }

  /** A transaction moves and nothing is committed. */
  lemma MoveKeepsSound(s: State, s': State, tx: nat)
    requires Sound(s) && SameRows(s, s') && tx in s'.txs && s'.txs.Keys == s.txs.Keys + {tx}
    requires forall b :: b in s.txs && b != tx ==> s'.txs[b] == s.txs[b]
    requires forall b :: b in s.expireFrom && b != tx ==> b in s'.expireFrom && s'.expireFrom[b] == s.expireFrom[b]
    requires tx !in s.rows && TxSound(s', tx)
    ensures Sound(s')
  {
    hide TxSound, OnlySuccessorsEnd, RowsKnown;
    forall a | a in s.rows ensures a in s.txs && a != tx && a in s.expireFrom {
      KnownRow(s, a);
    }
    RowsStaySound(s, s');
    forall b | b in s'.txs ensures TxSound(s', b) {
      if b != tx {
        OtherTxStaysSound(s, s', b);
      }
    }
  }

  lemma KnownRow(s: State, a: nat)
    requires RowsKnown(s) && a in s.rows
    ensures RowKnown(s, a)
  {
  }

  lemma OpenTxHasNoRow(s: State, tx: nat)
    requires Sound(s) && (tx in s.txs ==> !s.txs[tx].Committed?)
    ensures tx !in s.rows
  {
    hide TxSound, OnlySuccessorsEnd;
    forall a | a in s.rows ensures a != tx {
      KnownRow(s, a);
    }
  }

  lemma StartKeepsSound(s: State, tx: nat)
    requires Sound(s) && tx in s.txs && s.txs[tx].LookedUp?
    ensures Sound(Next(s, StartExpire(tx)))
  {
    hide OnlySuccessorsEnd;
    var s' := Next(s, StartExpire(tx));
    OpenTxHasNoRow(s, tx);
    assert TxSound(s, tx);
    forall a | a in s.rows ensures a in s.committedAt && s.committedAt[a] < s.steps && !s.rows[a].spent {
      KnownRow(s, a);
    }
    hide TxSound, RowsKnown, Sound;
    StartedIsSound(s, tx);
    MoveKeepsSound(s, s', tx);
  }

  lemma StartedIsSound(s: State, tx: nat)
    requires tx in s.txs && s.txs[tx].LookedUp? && tx !in s.rows && s.txs[tx].began <= s.clock
    requires forall a :: a in s.rows ==>
               a in s.committedAt && s.committedAt[a] < s.steps && !s.rows[a].spent
    ensures TxSound(Next(s, StartExpire(tx)), tx)
  {
  }

  lemma BeganBefore(s: State, tx: nat)
    requires Sound(s) && tx in s.txs
    ensures TxSound(s, tx)
  {
    hide TxSound, OnlySuccessorsEnd, RowsKnown;
  }

  lemma NoneSpent(s: State)
    requires Sound(s)
    ensures forall a :: a in s.rows ==> !s.rows[a].spent
  {
    hide TxSound, OnlySuccessorsEnd;
    forall a | a in s.rows ensures !s.rows[a].spent {
      KnownRow(s, a);
    }
  }

  lemma FinishKeepsSound(s: State, tx: nat)
    requires Sound(s) && tx in s.txs && s.txs[tx].Expiring?
    ensures Sound(Next(s, FinishExpire(tx)))
  {
    hide TxSound, Sound, FinishStep;
    var s' := Next(s, FinishExpire(tx));
    OpenTxHasNoRow(s, tx);
    BeganBefore(s, tx);
    NoneSpent(s);
    FinishedIsSound(s, tx);
    FinishKeepsRows(s, tx);
    MoveKeepsSound(s, s', tx);
  }

  lemma FinishKeepsRows(s: State, tx: nat)
    requires tx in s.txs && s.txs[tx].Expiring?
    ensures var s' := Next(s, FinishExpire(tx));
            && SameRows(s, s') && s'.expireFrom == s.expireFrom && tx in s'.txs && s'.txs.Keys == s.txs.Keys
            && forall b :: b in s.txs && b != tx ==> s'.txs[b] == s.txs[b]
  {
    hide HeldElsewhere;
  }

  lemma FinishedIsSound(s: State, tx: nat)
    requires tx in s.txs && s.txs[tx].Expiring? && tx !in s.rows && TxSound(s, tx)
    requires forall a :: a in s.rows ==> !s.rows[a].spent
    ensures TxSound(Next(s, FinishExpire(tx)), tx)
  {
    hide HeldElsewhere;
  }

  lemma InsertKeepsSound(s: State, tx: nat, now: nat, window: nat)
    requires Sound(s) && tx in s.txs && s.txs[tx].Expired? && s.clock <= now
    ensures Sound(Next(s, Insert(tx, now, window)))
  {
    hide TxSound, Sound;
    OpenTxHasNoRow(s, tx);
    BeganBefore(s, tx);
    InsertedIsSound(s, tx, now, window);
    MoveKeepsSound(s, Next(s, Insert(tx, now, window)), tx);
  }

  lemma InsertedIsSound(s: State, tx: nat, now: nat, window: nat)
    requires tx in s.txs && s.txs[tx].Expired? && s.clock <= now && TxSound(s, tx)
    ensures TxSound(Next(s, Insert(tx, now, window)), tx)
  {
  }

  /** A transaction whose expire statement has not started, or that has given up. */
  lemma UnstartedIsSound(s: State, tx: nat)
    requires tx in s.txs && tx !in s.rows && (s.txs[tx].Begun? || s.txs[tx].LookedUp? || s.txs[tx].RolledBack?)
    requires !s.txs[tx].RolledBack? ==> s.txs[tx].began <= s.clock
    ensures TxSound(s, tx)
  {
  }

  lemma OtherMovesKeepSound(s: State, a: Action)
    requires Sound(s) && (a.Begin? || a.LookUp? || a.Rollback?)
    ensures Sound(Next(s, a))
  {
    hide TxSound, Sound, RowsKnown;
    var s' := Next(s, a);
    if s'.txs == s.txs {
      StandingStill(s, s');
    } else {
      OpenTxHasNoRow(s, a.tx);
      if a.LookUp? {
        BeganInTime(s, a.tx);
      }
      UnstartedIsSound(s', a.tx);
      MoveKeepsSound(s, s', a.tx);
    }
  }

  lemma BeganInTime(s: State, tx: nat)
    requires Sound(s) && tx in s.txs && s.txs[tx].Begun?
    ensures s.txs[tx].began <= s.clock
  {
    hide Sound;
    BeganBefore(s, tx);
  }

  // ---------------------------------------------------------------- commits

  lemma CommitKeepsSound(s: State, tx: nat)
    requires Sound(s) && tx in s.txs && s.txs[tx].Inserted?
    ensures Sound(Next(s, Commit(tx)))
  {
    hide Sound, RowsKnown, TxSound, OnlySuccessorsEnd, CommitStep;
    OpenTxHasNoRow(s, tx);
    BeganBefore(s, tx);
    var s' := Next(s, Commit(tx));
    CommitKeepsRows(s, tx);
    CommitAddsOne(s, tx);
    forall a | a in s'.rows ensures OnlySuccessorsEnd(s', a) {
      if a != tx {
        OnlyTheCommittedEnds(s, tx, a);
      } else {
        NewRowIsWhole(s, tx);
      }
    }
    forall b | b in s'.txs ensures TxSound(s', b) {
      if b != tx {
        BeganBefore(s, b);
        CommitKeepsOthers(s, tx, b);
      } else {
        CommittedIsSound(s, tx);
      }
    }
    assert Sound(s') by { SoundByParts(s'); }
  }

  lemma CommitAddsOne(s: State, tx: nat)
    requires tx in s.txs && s.txs[tx].Inserted?
    ensures Next(s, Commit(tx)).rows.Keys == s.rows.Keys + {tx} && Next(s, Commit(tx)).txs.Keys == s.txs.Keys
  {
  }

  lemma SoundByParts(s: State)
    requires RowsKnown(s) && (forall a :: a in s.rows ==> OnlySuccessorsEnd(s, a))
    requires forall b :: b in s.txs ==> TxSound(s, b)
    ensures Sound(s)
  {
  }

  lemma CommitKeepsRows(s: State, tx: nat)
    requires Sound(s) && tx in s.txs && s.txs[tx].Inserted? && tx !in s.rows && TxSound(s, tx)
    ensures RowsKnown(Next(s, Commit(tx)))
  {
    hide OnlySuccessorsEnd;
    var s' := Next(s, Commit(tx));
    forall a | a in s'.rows ensures RowKnown(s', a) {
      if a != tx {
        KnownRow(s, a);
      }
    }
  }

  lemma NewRowIsWhole(s: State, tx: nat)
    requires tx in s.txs && s.txs[tx].Inserted? && RowsKnown(Next(s, Commit(tx)))
    ensures OnlySuccessorsEnd(Next(s, Commit(tx)), tx)
  {
    hide RowsKnown;
  }

  lemma HeldPrecedes(s: State, tx: nat, a: nat)
    requires tx in s.txs && s.txs[tx].Inserted? && TxSound(s, tx)
    ensures a in s.txs[tx].held ==>
              a in s.rows && s.rows[a].holder == s.txs[tx].holder && Precedes(s, a, tx)
  {
    hide Precedes;
    assert a in s.txs[tx].held ==> WillEnd(s.txs[tx], a);
  }

  /** A commit ends a link only by following it. */
  lemma OnlyTheCommittedEnds(s: State, tx: nat, a: nat)
    requires Sound(s) && tx in s.txs && s.txs[tx].Inserted? && tx !in s.rows && a in s.rows && TxSound(s, tx)
    requires RowsKnown(Next(s, Commit(tx)))
    ensures a in Next(s, Commit(tx)).rows && OnlySuccessorsEnd(Next(s, Commit(tx)), a)
  {
    hide RowKnown, TxSound;
    var s' := Next(s, Commit(tx));
    assert OnlySuccessorsEnd(s, a);
    HeldPrecedes(s, tx, a);
    if a in s.txs[tx].held {
      assert SupersededBy(s', a, tx);
    } else if b :| SupersededBy(s, a, b) {
      assert SupersededBy(s', a, b);
    }
  }

  lemma CommittedIsSound(s: State, tx: nat)
    requires tx in s.txs && s.txs[tx].Inserted? && TxSound(s, tx)
    ensures TxSound(Next(s, Commit(tx)), tx)
  {
  }

  /** A commit keeps every older row in place; a deadline it moves is past. */
  lemma CommitMovesDeadlines(s: State, tx: nat, a: nat, b: nat)
    requires tx in s.txs && s.txs[tx].Inserted? && s.txs[tx].began <= s.clock && tx !in s.rows && a != tx
    requires b in s.expireFrom && s.expireFrom[b] < s.steps
    ensures var s' := Next(s, Commit(tx));
            && (a in s.rows <==> a in s'.rows) && (Precedes(s', a, b) <==> Precedes(s, a, b)) && !Precedes(s', tx, b)
            && (a in s.rows ==>
                  && s'.rows[a].holder == s.rows[a].holder
                  && (s.rows[a].expiresAt <= s.clock ==> s'.rows[a].expiresAt <= s'.clock))
  {
  }

  lemma CommitKeepsOthers(s: State, tx: nat, b: nat)
    requires tx in s.txs && s.txs[tx].Inserted? && TxSound(s, tx) && tx !in s.rows
    requires b in s.txs && b != tx && TxSound(s, b)
    ensures TxSound(Next(s, Commit(tx)), b)
  {
    hide Precedes, WillEnd;
    var s', p := Next(s, Commit(tx)), s.txs[b];
    if PastStart(p) {
      hide CommitStep;
      CommitStands(s, tx, b);
      CommitMovesDeadlines(s, tx, b, b);
      forall a | WillEnd(p, a) ensures a in s'.rows && s'.rows[a].holder == p.holder && Precedes(s', a, b) {
        CommitMovesDeadlines(s, tx, a, b);
      }
      forall a | a in s'.rows && a != b && s'.rows[a].holder == p.holder && Precedes(s', a, b)
        ensures WillEnd(p, a) || s'.rows[a].expiresAt <= s'.clock
      {
        CommitMovesDeadlines(s, tx, if a == tx then b else a, b);
      }
    }
  }

  lemma CommitStands(s: State, tx: nat, b: nat)
    requires tx in s.txs && s.txs[tx].Inserted? && b in s.txs && b != tx
    ensures var s' := Next(s, Commit(tx));
            && b in s'.txs && s'.txs[b] == s.txs[b] && s'.clock == s.clock && s.steps < s'.steps
            && s'.expireFrom == s.expireFrom && (b in s'.rows <==> b in s.rows)
  {
  }

  lemma StandingStill(s: State, s': State)
    requires Sound(s) && SameRows(s, s') && s'.txs == s.txs && s'.expireFrom == s.expireFrom
    ensures Sound(s')
  {
    hide OnlySuccessorsEnd, TxSound, RowsKnown;
    forall a | a in s.rows ensures a in s.txs && a in s.expireFrom {
      KnownRow(s, a);
    }
    RowsStaySound(s, s');
    forall b | b in s'.txs ensures TxSound(s', b) {
      OtherTxStaysSound(s, s', b);
    }
  }

  lemma StepKeepsSound(s: State, a: Action)
    requires Sound(s)
    ensures Sound(Next(s, a))
  {
    hide Sound, FinishStep, CommitStep;
    match a
    case StartExpire(tx) =>
      if tx in s.txs && s.txs[tx].LookedUp? { StartKeepsSound(s, tx); } else { StandingStill(s, Next(s, a)); }
    case FinishExpire(tx) =>
      if tx in s.txs && s.txs[tx].Expiring? { FinishKeepsSound(s, tx); } else { StandingStill(s, Next(s, a)); }
    case Insert(tx, now, window) =>
      if tx in s.txs && s.txs[tx].Expired? && s.clock <= now {
        InsertKeepsSound(s, tx, now, window);
      } else {
        StandingStill(s, Next(s, a));
      }
    case Commit(tx) =>
      if tx in s.txs && s.txs[tx].Inserted? { CommitKeepsSound(s, tx); } else { StandingStill(s, Next(s, a)); }
    case Bar(_) => StandingStill(s, Next(s, a));
    case Admit(_) => StandingStill(s, Next(s, a));
    case _ => OtherMovesKeepSound(s, a);
  }

  // ------------------------------------------------------------- every run

  lemma {:induction false} RunsAreSound(actions: seq<Action>)
    ensures Sound(Run(actions))
  {
    if actions != [] {
      hide Next, Sound;
      RunsAreSound(actions[..|actions| - 1]);
      StepKeepsSound(Run(actions[..|actions| - 1]), actions[|actions| - 1]);
    }
  }

  /** In every schedule a committed link is usable, until its own deadline, exactly
      when no committed transaction for its holder started its expire statement after
      the link was committed. */
  lemma {:induction false} UsableIffNotFollowed(actions: seq<Action>, a: nat, now: nat)
    requires a in Run(actions).rows && a in Run(actions).deadline
    requires Run(actions).clock <= now < Run(actions).deadline[a]
    ensures Usable(Run(actions).rows[a], now) <==> !exists b :: SupersededBy(Run(actions), a, b)
  {
    hide Run;
    RunsAreSound(actions);
    var s := Run(actions);
    KnownRow(s, a);
    assert OnlySuccessorsEnd(s, a);
    if b :| SupersededBy(s, a, b) {
      KnownRow(s, b);
      assert TxSound(s, b);
    }
  }

  /** Two links of one holder, the only two that committed: at most one of
      them is usable exactly when one transaction committed before the other
      started its expire statement. */
  lemma {:induction false} OneUsableIffOneFollows(actions: seq<Action>, a: nat, b: nat, now: nat)
    requires var s := Run(actions);
             && a in s.rows && b in s.rows && a != b && s.rows[a].holder == s.rows[b].holder
             && (forall x :: x in s.rows && s.rows[a].holder == s.rows[x].holder ==> x == a || x == b)
             && a in s.deadline && b in s.deadline && s.clock <= now < s.deadline[a] && now < s.deadline[b]
    ensures var s := Run(actions);
            !(Usable(s.rows[a], now) && Usable(s.rows[b], now)) <==> Precedes(s, a, b) || Precedes(s, b, a)
  {
    hide Run, Usable;
    var s := Run(actions);
    UsableIffNotFollowed(actions, a, now);
    UsableIffNotFollowed(actions, b, now);
    if Precedes(s, a, b) {
      assert SupersededBy(s, a, b);
    }
    if Precedes(s, b, a) {
      assert SupersededBy(s, b, a);
    }
    forall x | SupersededBy(s, b, x) ensures x == a {
    }
  }

  // ------------------------------------------------------- one after another

  /** What one statement after another leaves: the holder's open rows ended, and a
      new one; or nothing, for a holder who is barred. */
  function Issued(rows: map<nat, Link>, barred: set<Holder>, tx: nat, holder: Holder, began: nat, expiresAt: nat):
    map<nat, Link>
  {
    if holder in barred then rows
    else
      var ended := map id | id in rows ::
        if rows[id].holder == holder && Usable(rows[id], began) then rows[id].(expiresAt := began) else rows[id];
      ended[tx := Link(holder, expiresAt, false, |rows|)]
  }

  /** The six steps of one transaction. */
  function Uninterrupted(s: State, tx: nat, holder: Holder, began: nat, read: nat, window: nat): State {
    var lookedUp := Next(Next(s, Begin(tx, holder, began)), LookUp(tx));
    var expired := Next(Next(lookedUp, StartExpire(tx)), FinishExpire(tx));
    Next(Next(expired, Insert(tx, read, window)), Commit(tx))
  }

  lemma {:induction false} UninterruptedIssues(s: State, tx: nat, holder: Holder, began: nat, read: nat, window: nat)
    requires tx !in s.txs && s.clock <= began <= read
    requires forall other, id :: other in s.txs && id in s.rows ==> !Holds(s.txs[other], id)
    ensures Uninterrupted(s, tx, holder, began, read, window).rows ==
            Issued(s.rows, s.barred, tx, holder, began, read + window)
  {
    hide Next, OpenRows, Issued;
    var lookedUp := Next(Next(s, Begin(tx, holder, began)), LookUp(tx));
    LookUpDecides(s, tx, holder, began);
    if holder in s.barred {
      RolledBackStays(lookedUp, tx, read, window);
      BarredIssueNothing(s.rows, s.barred, tx, holder, began, read + window);
    } else {
      var started := Next(lookedUp, StartExpire(tx));
      ExpireWithoutWaiting(lookedUp, started, s.txs, tx, holder, began);
      CommitIssues(Next(started, FinishExpire(tx)), s.barred, tx, holder, began, read, window);
    }
  }

  lemma BarredIssueNothing(rows: map<nat, Link>, barred: set<Holder>, tx: nat, holder: Holder,
                           began: nat, expiresAt: nat)
    requires holder in barred
    ensures Issued(rows, barred, tx, holder, began, expiresAt) == rows
  {
  }

  lemma LookUpDecides(s: State, tx: nat, holder: Holder, began: nat)
    requires tx !in s.txs && s.clock <= began
    ensures var s' := Next(Next(s, Begin(tx, holder, began)), LookUp(tx));
            && s'.rows == s.rows && s'.clock == began
            && s'.txs == s.txs[tx := if holder in s.barred then RolledBack else LookedUp(holder, began)]
  {
    var begun := Next(s, Begin(tx, holder, began));
    assert begun.txs == s.txs[tx := Begun(holder, began)];
  }

  lemma RolledBackStays(s: State, tx: nat, read: nat, window: nat)
    requires tx in s.txs && s.txs[tx].RolledBack?
    ensures var expired := Next(Next(s, StartExpire(tx)), FinishExpire(tx));
            Next(Next(expired, Insert(tx, read, window)), Commit(tx)).rows == s.rows
  {
  }

  lemma ExpireWithoutWaiting(s: State, started: State, before: map<nat, Issuing>, tx: nat, holder: Holder, began: nat)
    requires s.txs == before[tx := LookedUp(holder, began)] && started == Next(s, StartExpire(tx))
    requires forall other, id :: other in before && id in s.rows ==> !Holds(before[other], id)
    ensures var s' := Next(started, FinishExpire(tx));
            && s'.rows == s.rows && s'.clock == s.clock
            && tx in s'.txs && s'.txs[tx] == Expired(holder, began, OpenRows(s.rows, holder, began))
  {
    var open := OpenRows(s.rows, holder, began);
    assert started.txs == before[tx := Expiring(holder, began, open)];
    forall id | id in open ensures !HeldElsewhere(started, tx, id) {
    }
    assert open == StillOpen(s.rows, open, began);
  }

  lemma CommitIssues(s: State, barred: set<Holder>, tx: nat, holder: Holder, began: nat, read: nat, window: nat)
    requires tx in s.txs && s.txs[tx] == Expired(holder, began, OpenRows(s.rows, holder, began)) && s.clock <= read
    requires holder !in barred
    ensures Next(Next(s, Insert(tx, read, window)), Commit(tx)).rows ==
            Issued(s.rows, barred, tx, holder, began, read + window)
  {
    hide Usable;
    var open := OpenRows(s.rows, holder, began);
    var inserted := Next(s, Insert(tx, read, window));
    assert inserted.txs[tx] == Inserted(holder, began, open, read + window);
    assert EndLinks(s.rows, open, began)
        == map id | id in s.rows ::
             if s.rows[id].holder == holder && Usable(s.rows[id], began) then s.rows[id].(expiresAt := began)
             else s.rows[id];
  }

  // ------------------------------------------------------ a schedule that fails

  /** Both expire what is open before either inserts. */
  function Race(holder: Holder, window: nat): seq<Action> {
    [Begin(1, holder, 0), Begin(2, holder, 0), LookUp(1), LookUp(2),
     StartExpire(1), FinishExpire(1), StartExpire(2), FinishExpire(2),
     Insert(1, 0, window), Insert(2, 0, window), Commit(1), Commit(2)]
  }

  lemma RunOf(actions: seq<Action>, n: nat)
    requires n < |actions|
    ensures Run(actions[..n + 1]) == Next(Run(actions[..n]), actions[n])
  {
    hide Next;
    assert actions[..n + 1][..n] == actions[..n];
  }

  lemma RunOfFour(actions: seq<Action>, n: nat)
    requires n + 4 <= |actions|
    ensures Run(actions[..n + 4]) ==
            Next(Next(Next(Next(Run(actions[..n]), actions[n]), actions[n + 1]), actions[n + 2]), actions[n + 3])
  {
    hide Next, Run;
    RunOf(actions, n);
    RunOf(actions, n + 1);
    RunOf(actions, n + 2);
    RunOf(actions, n + 3);
  }

  /** A run after which one holder has two usable links for the whole window. */
  lemma {:induction false} RaceLeavesTwo(holder: Holder, window: nat, now: nat)
    requires now < window
    ensures var s := Run(Race(holder, window));
            && s.rows.Keys == {1, 2} && s.rows[1].holder == s.rows[2].holder
            && Usable(s.rows[1], now) && Usable(s.rows[2], now)
  {
    hide Run, Next;
    var race := Race(holder, window);
    StartsEmpty();
    assert race[..0] == [] && race[..12] == race;
    RunOfFour(race, 0);
    RunOfFour(race, 4);
    RunOfFour(race, 8);
    BothLookUp(holder);
    BothExpire(Run(race[..4]), holder);
    BothCommit(Run(race[..8]), holder, window);
  }

  lemma StartsEmpty()
    ensures Run([]) == NOTHING
  {
  }

  lemma BothLookUp(holder: Holder)
    ensures var s := Next(Next(Next(Next(NOTHING, Begin(1, holder, 0)), Begin(2, holder, 0)), LookUp(1)), LookUp(2));
            && s.rows == map[] && s.clock == 0
            && s.txs == map[1 := LookedUp(holder, 0), 2 := LookedUp(holder, 0)]
  {
  }

  /** With no row to end, the expire statement ends none. */
  lemma ExpireOfNothing(s: State, tx: nat, holder: Holder)
    requires s.rows == map[] && tx in s.txs && s.txs[tx] == LookedUp(holder, 0)
    ensures var s' := Next(Next(s, StartExpire(tx)), FinishExpire(tx));
            s'.rows == map[] && s'.clock == s.clock && s'.txs == s.txs[tx := Expired(holder, 0, {})]
  {
    assert OpenRows(s.rows, holder, 0) == {};
    var started := Next(s, StartExpire(tx));
    assert started.txs == s.txs[tx := Expiring(holder, 0, {})];
    FinishOfNothing(started, tx, holder);
    assert started.txs[tx := Expired(holder, 0, {})] == s.txs[tx := Expired(holder, 0, {})];
  }

  lemma FinishOfNothing(s: State, tx: nat, holder: Holder)
    requires s.rows == map[] && tx in s.txs && s.txs[tx] == Expiring(holder, 0, {})
    ensures var s' := Next(s, FinishExpire(tx));
            s'.rows == s.rows && s'.clock == s.clock && s'.txs == s.txs[tx := Expired(holder, 0, {})]
  {
    var p := s.txs[tx];
    assert StillOpen(s.rows, {}, 0) == {};
    assert FinishStep(s, tx, p) == Move(s, tx, Expired(holder, 0, {}));
  }

  lemma BothExpire(s: State, holder: Holder)
    requires s.rows == map[] && s.clock == 0
    requires s.txs == map[1 := LookedUp(holder, 0), 2 := LookedUp(holder, 0)]
    ensures var s' := Next(Next(Next(Next(s, StartExpire(1)), FinishExpire(1)), StartExpire(2)), FinishExpire(2));
            && s'.rows == map[] && s'.clock == 0
            && s'.txs == map[1 := Expired(holder, 0, {}), 2 := Expired(holder, 0, {})]
  {
    hide Next;
    ExpireOfNothing(s, 1, holder);
    var one := Next(Next(s, StartExpire(1)), FinishExpire(1));
    ExpireOfNothing(one, 2, holder);
  }

  lemma CommitOfNothing(s: State, tx: nat, holder: Holder, window: nat)
    requires tx in s.txs && s.txs[tx] == Inserted(holder, 0, {}, window)
    ensures var s' := Next(s, Commit(tx));
            && s'.rows == s.rows[tx := Link(holder, window, false, |s.rows|)]
            && s'.txs == s.txs[tx := Committed(holder)]
  {
    EndNoLinks(s.rows, 0);
  }

  lemma EndNoLinks(rows: map<nat, Link>, now: nat)
    ensures EndLinks(rows, {}, now) == rows
  {
  }

  lemma InsertOne(s: State, tx: nat, holder: Holder, window: nat)
    requires s.clock == 0 && tx in s.txs && s.txs[tx] == Expired(holder, 0, {})
    ensures var s' := Next(s, Insert(tx, 0, window));
            && s'.rows == s.rows && s'.clock == 0
            && s'.txs == s.txs[tx := Inserted(holder, 0, {}, window)]
  {
  }

  lemma BothInsert(s: State, holder: Holder, window: nat)
    requires s.rows == map[] && s.clock == 0
    requires s.txs == map[1 := Expired(holder, 0, {}), 2 := Expired(holder, 0, {})]
    ensures var s' := Next(Next(s, Insert(1, 0, window)), Insert(2, 0, window));
            && s'.rows == map[]
            && s'.txs == map[1 := Inserted(holder, 0, {}, window),
                             2 := Inserted(holder, 0, {}, window)]
  {
    hide Next;
    InsertOne(s, 1, holder, window);
    InsertOne(Next(s, Insert(1, 0, window)), 2, holder, window);
  }

  lemma BothCommit(s: State, holder: Holder, window: nat)
    requires s.rows == map[] && s.clock == 0
    requires s.txs == map[1 := Expired(holder, 0, {}), 2 := Expired(holder, 0, {})]
    ensures var s' := Next(Next(Next(Next(s, Insert(1, 0, window)), Insert(2, 0, window)), Commit(1)), Commit(2));
            s'.rows == map[1 := Link(holder, window, false, 0),
                           2 := Link(holder, window, false, 1)]
  {
    hide Next;
    BothInsert(s, holder, window);
    var inserted := Next(Next(s, Insert(1, 0, window)), Insert(2, 0, window));
    CommitOfNothing(inserted, 1, holder, window);
    CommitOfNothing(Next(inserted, Commit(1)), 2, holder, window);
  }
}
