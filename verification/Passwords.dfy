/** Password rewriting under every interleaving: reset confirmations, which are
    transactions of several statements, racing login rehashes, which are one
    compare-and-set. Statements behave as in module Invitations.

    A hash verifies exactly the normal form it was made from. Salts are random,
    so no two calls of HashPassword return the same hash: a hash names its maker. */
module Passwords {

  datatype Maker = Registration(user: nat) | Confirmation(c: nat) | Rehashing(l: nat)

  datatype Hash = Hash(password: string, cost: nat, maker: Maker)

  datatype User = User(hash: Hash, live: bool)

  datatype Reset = Reset(user: nat, expiresAt: nat, used: bool)

  /** How far one confirmation has come; the hash is made before the transaction. */
  datatype Confirming =
    | Hashed(token: nat, hash: Hash)
    | Begun(token: nat, hash: Hash, startedAt: nat)
    | Checked(id: nat, user: nat, hash: Hash, startedAt: nat)
    | Stamped(id: nat, user: nat, hash: Hash)
    | Written(id: nat, user: nat, hash: Hash)
    | Confirmed(id: nat, user: nat, hash: Hash)
    | Abandoned

  /** How far one login has come past a password that verified. */
  datatype LoggingIn =
    | HasRead(user: nat, from: Hash)
    | HasRehashed(user: nat, from: Hash, to: Hash)
    | Won(user: nat, from: Hash, to: Hash)
    | Left

  /** `chosen` and `retired` are bookkeeping: the last password a committed
      registration or confirmation chose, and hashes an account no longer has. */
  datatype State = State(users: map<nat, User>, resets: map<nat, Reset>,
                         confirms: map<nat, Confirming>, logins: map<nat, LoggingIn>, cost: nat,
                         chosen: map<nat, string>, retired: set<(nat, Hash)>)

  datatype Action =
    | Register(user: nat, password: string)
    | RaiseCost
    | Mask(user: nat)
    | Issue(id: nat, user: nat, expiresAt: nat)
    | Expire(id: nat, now: nat)
    | HashNew(c: nat, token: nat, password: string)
    | Begin(c: nat, now: nat)
    | Check(c: nat, now: nat)
    | Stamp(c: nat)
    | Write(c: nat)
    | Commit(c: nat)
    | Rollback(c: nat)
    | Login(l: nat, user: nat, password: string)
    | Rehash(l: nat)
    | Swap(l: nat)

  predicate IsUsable(reset: Reset, now: nat) {
    !reset.used && now < reset.expiresAt
  }

  predicate HoldsReset(phase: Confirming, id: nat) {
    (phase.Stamped? || phase.Written?) && phase.id == id
  }

  predicate ResetLocked(s: State, id: nat) {
    exists c :: c in s.confirms && HoldsReset(s.confirms[c], id)
  }

  predicate HoldsUser(phase: Confirming, user: nat) {
    phase.Written? && phase.user == user
  }

  predicate UserLocked(s: State, user: nat) {
    exists c :: c in s.confirms && HoldsUser(s.confirms[c], user)
  }

  predicate Verifies(hash: Hash, password: string) {
    hash.password == password
  }

  // ----------------------------------------------------------------- steps

  function Confirm(s: State, c: nat, phase: Confirming): State {
    s.(confirms := s.confirms[c := phase])
  }

  function CheckStep(s: State, c: nat, phase: Confirming, now: nat): State
    requires phase.Begun?
  {
    if phase.token in s.resets && IsUsable(s.resets[phase.token], now)
    then Confirm(s, c, Checked(phase.token, s.resets[phase.token].user, phase.hash, phase.startedAt))
    else Confirm(s, c, Abandoned)
  }

  /** UPDATE password_resets ... WHERE used_at IS NULL AND expires_at > now(). */
  function StampStep(s: State, c: nat, phase: Confirming): State
    requires phase.Checked?
  {
    if ResetLocked(s, phase.id) then s
    else if phase.id in s.resets && IsUsable(s.resets[phase.id], phase.startedAt)
    then Confirm(s, c, Stamped(phase.id, phase.user, phase.hash))
    else Confirm(s, c, Abandoned)
  }

  /** UPDATE users SET password_hash ... WHERE id = $2 AND deleted_at IS NULL. */
  function WriteStep(s: State, c: nat, phase: Confirming): State
    requires phase.Stamped?
  {
    if UserLocked(s, phase.user) then s
    else if phase.user in s.users && s.users[phase.user].live
    then Confirm(s, c, Written(phase.id, phase.user, phase.hash))
    else Confirm(s, c, Abandoned)
  }

  function CommitStep(s: State, c: nat, phase: Confirming): State
    requires phase.Written?
  {
    if phase.id !in s.resets || phase.user !in s.users then s
    else
      var user := s.users[phase.user];
      s.(resets := s.resets[phase.id := s.resets[phase.id].(used := true)],
         users := s.users[phase.user := user.(hash := phase.hash)],
         confirms := s.confirms[c := Confirmed(phase.id, phase.user, phase.hash)],
         chosen := s.chosen[phase.user := phase.hash.password],
         retired := s.retired + {(phase.user, user.hash)})
  }

  /** Read the row, verify, and go on only when the hash is out of date. */
  function LoginStep(s: State, l: nat, user: nat, password: string): State {
    if user in s.users && s.users[user].live && Verifies(s.users[user].hash, password)
       && s.users[user].hash.cost < s.cost
    then s.(logins := s.logins[l := HasRead(user, s.users[user].hash)])
    else s.(logins := s.logins[l := Left])
  }

  /** UPDATE users ... WHERE id = $2 AND password_hash = $3 AND deleted_at IS NULL. */
  function SwapStep(s: State, l: nat, phase: LoggingIn): State
    requires phase.HasRehashed?
  {
    if UserLocked(s, phase.user) then s
    else if phase.user in s.users && s.users[phase.user].live && s.users[phase.user].hash == phase.from
    then s.(users := s.users[phase.user := s.users[phase.user].(hash := phase.to)],
            logins := s.logins[l := Won(phase.user, phase.from, phase.to)],
            retired := s.retired + {(phase.user, phase.from)})
    else s.(logins := s.logins[l := Left])
  }

  function Next(s: State, a: Action): State {
    match a
    case Register(user, password) =>
      if user in s.users then s
      else s.(users := s.users[user := User(Hash(password, s.cost, Registration(user)), true)],
              chosen := s.chosen[user := password])
    case RaiseCost => s.(cost := s.cost + 1)
    case Mask(user) =>
      if user in s.users && !UserLocked(s, user) then s.(users := s.users[user := s.users[user].(live := false)]) else s
    case Issue(id, user, expiresAt) =>
      if id in s.resets then s else s.(resets := s.resets[id := Reset(user, expiresAt, false)])
    case Expire(id, now) =>
      if id in s.resets && IsUsable(s.resets[id], now) && !ResetLocked(s, id)
      then s.(resets := s.resets[id := s.resets[id].(expiresAt := now)]) else s
    case HashNew(c, token, password) =>
      if c in s.confirms then s else Confirm(s, c, Hashed(token, Hash(password, s.cost, Confirmation(c))))
    case Begin(c, now) =>
      if c in s.confirms && s.confirms[c].Hashed?
      then Confirm(s, c, Begun(s.confirms[c].token, s.confirms[c].hash, now)) else s
    case Check(c, now) =>
      if c in s.confirms && s.confirms[c].Begun? then CheckStep(s, c, s.confirms[c], now) else s
    case Stamp(c) => if c in s.confirms && s.confirms[c].Checked? then StampStep(s, c, s.confirms[c]) else s
    case Write(c) => if c in s.confirms && s.confirms[c].Stamped? then WriteStep(s, c, s.confirms[c]) else s
    case Commit(c) => if c in s.confirms && s.confirms[c].Written? then CommitStep(s, c, s.confirms[c]) else s
    case Rollback(c) => if c in s.confirms && !s.confirms[c].Confirmed? then Confirm(s, c, Abandoned) else s
    case Login(l, user, password) => if l in s.logins then s else LoginStep(s, l, user, password)
    case Rehash(l) =>
      if l in s.logins && s.logins[l].HasRead?
      then var from := s.logins[l].from;
           s.(logins := s.logins[l := HasRehashed(s.logins[l].user, from, Hash(from.password, s.cost, Rehashing(l)))])
      else s
    case Swap(l) => if l in s.logins && s.logins[l].HasRehashed? then SwapStep(s, l, s.logins[l]) else s
  }

  const NOTHING := State(map[], map[], map[], map[], 0, map[], {})

  function Run(actions: seq<Action>): State {
    if actions == [] then NOTHING
    else Next(Run(actions[..|actions| - 1]), actions[|actions| - 1])
  }

  // ------------------------------------------------------------- invariant

  /** The stored hash verifies the last password that was chosen and committed. */
  predicate UserVerifies(s: State, user: nat)
    requires user in s.users
  {
    user in s.chosen && Verifies(s.users[user].hash, s.chosen[user])
  }

  /** What a confirmation carries: its own hash, and the row it will stamp. */
  predicate ConfirmKnows(s: State, c: nat, phase: Confirming) {
    && (!phase.Abandoned? ==> phase.hash.maker == Confirmation(c))
    && (phase.Checked? || phase.Stamped? || phase.Written? || phase.Confirmed? ==>
          phase.id in s.resets && s.resets[phase.id].user == phase.user)
    && (phase.Stamped? || phase.Written? ==> !s.resets[phase.id].used)
    && (phase.Confirmed? ==> s.resets[phase.id].used)
    && (phase.Written? || phase.Confirmed? ==> phase.user in s.users)
  }

  /** What a login carries: a hash of the password it verified, and its own. */
  predicate LoginKnows(s: State, l: nat, phase: LoggingIn) {
    && (phase.HasRehashed? || phase.Won? ==> phase.to.maker == Rehashing(l) && phase.to.password == phase.from.password)
    && (phase.Won? ==> (phase.user, phase.from) in s.retired)
  }

  /** A hash an account has, or had, was made by something that has finished. */
  predicate MakerFinished(s: State, hash: Hash) {
    match hash.maker
    case Registration(user) => user in s.users
    case Confirmation(c) => c in s.confirms && s.confirms[c].Confirmed?
    case Rehashing(l) => l in s.logins && s.logins[l].Won?
  }

  ghost predicate HashesAreSound(s: State) {
    && (forall u :: u in s.users ==>
          UserVerifies(s, u) && MakerFinished(s, s.users[u].hash) && (u, s.users[u].hash) !in s.retired)
    && (forall r :: r in s.retired ==> MakerFinished(s, r.1) && r.0 in s.users)
  }

  ghost predicate ProcessesAreSound(s: State) {
    && (forall c :: c in s.confirms ==> ConfirmKnows(s, c, s.confirms[c]))
    && (forall l :: l in s.logins ==> LoginKnows(s, l, s.logins[l]))
  }

  ghost predicate Consistent(s: State) {
    HashesAreSound(s) && ProcessesAreSound(s)
  }

  /** A stamped reset or a written account has one holder; a reset is used by
      exactly one confirmation; a replaced hash was won by one rehash. */
  ghost predicate Exclusive(s: State) {
    && (forall c, d ::
          c in s.confirms && d in s.confirms && c != d && (s.confirms[c].Stamped? || s.confirms[c].Written?) ==>
            !HoldsReset(s.confirms[d], s.confirms[c].id))
    && (forall c, d ::
          c in s.confirms && d in s.confirms && c != d && s.confirms[c].Confirmed? && s.confirms[d].Confirmed? ==>
            s.confirms[c].id != s.confirms[d].id)
    && (forall id :: id in s.resets && s.resets[id].used ==> UsedBySome(s, id))
    && (forall l, m ::
          l in s.logins && m in s.logins && l != m && s.logins[l].Won? && s.logins[m].Won? ==>
            (s.logins[l].user, s.logins[l].from) != (s.logins[m].user, s.logins[m].from))
  }

  predicate UsedBySome(s: State, id: nat) {
    exists c :: c in s.confirms && s.confirms[c].Confirmed? && s.confirms[c].id == id
  }

  // ------------------------------------------------------ what moves keep

  /** What is finished stays finished. */
  ghost predicate Grows(s: State, s': State) {
    && s.users.Keys <= s'.users.Keys
    && (forall c :: c in s.confirms && s.confirms[c].Confirmed? ==> c in s'.confirms && s'.confirms[c] == s.confirms[c])
    && (forall l :: l in s.logins && s.logins[l].Won? ==> l in s'.logins && s'.logins[l] == s.logins[l])
  }

  lemma FinishedStays(s: State, s': State, hash: Hash)
    requires Grows(s, s') && MakerFinished(s, hash)
    ensures MakerFinished(s', hash)
  {
  }

  /** Steps that store no hash keep what is stored sound. */
  lemma SameHashesAreSound(s: State, s': State)
    requires HashesAreSound(s) && Grows(s, s') && s'.retired == s.retired && s'.chosen == s.chosen
    requires s'.users.Keys == s.users.Keys && forall u :: u in s.users ==> s'.users[u].hash == s.users[u].hash
    ensures HashesAreSound(s')
  {
    hide MakerFinished, UserVerifies, Grows;
    forall u | u in s'.users
      ensures UserVerifies(s', u) && MakerFinished(s', s'.users[u].hash) && (u, s'.users[u].hash) !in s'.retired
    {
      FinishedStays(s, s', s.users[u].hash);
      SameUserVerifies(s, s', u);
    }
    forall r | r in s'.retired ensures MakerFinished(s', r.1) && r.0 in s'.users {
      FinishedStays(s, s', r.1);
    }
  }

  /** A confirmation takes a step that commits nothing. */
  lemma ConfirmKeepsConsistent(s: State, c: nat, phase: Confirming)
    requires Consistent(s) && !phase.Confirmed? && ConfirmKnows(s, c, phase)
    requires c in s.confirms ==> !s.confirms[c].Confirmed?
    ensures Consistent(Confirm(s, c, phase))
  {
    hide HashesAreSound;
    var s' := Confirm(s, c, phase);
    SameHashesAreSound(s, s');
    forall d | d in s'.confirms ensures ConfirmKnows(s', d, s'.confirms[d]) {
      assert d != c ==> ConfirmKnows(s, d, s.confirms[d]);
    }
    forall l | l in s'.logins ensures LoginKnows(s', l, s'.logins[l]) {
      assert LoginKnows(s, l, s.logins[l]);
    }
  }

  lemma SameUserVerifies(s: State, s': State, u: nat)
    requires u in s.users && u in s'.users && s.users[u].hash == s'.users[u].hash
    requires UserVerifies(s, u) && s'.chosen == s.chosen
    ensures UserVerifies(s', u)
  {
  }

  lemma ConfirmKeepsExclusive(s: State, c: nat, phase: Confirming)
    requires Exclusive(s) && !phase.Confirmed?
    requires c in s.confirms ==> !s.confirms[c].Confirmed?
    requires phase.Stamped? || phase.Written? ==>
               forall d :: d in s.confirms && d != c ==> !HoldsReset(s.confirms[d], phase.id)
    ensures Exclusive(Confirm(s, c, phase))
  {
    var s' := Confirm(s, c, phase);
    forall id | id in s'.resets && s'.resets[id].used ensures UsedBySome(s', id) {
      assert UsedBySome(s, id);
      var d :| d in s.confirms && s.confirms[d].Confirmed? && s.confirms[d].id == id;
      assert d in s'.confirms && s'.confirms[d].Confirmed? && s'.confirms[d].id == id;
    }
  }

  /** A login takes a step that writes nothing. */
  lemma LoginKeeps(s: State, l: nat, phase: LoggingIn)
    requires Consistent(s) && Exclusive(s) && !phase.Won? && LoginKnows(s, l, phase)
    requires l in s.logins ==> !s.logins[l].Won?
    ensures Consistent(s.(logins := s.logins[l := phase])) && Exclusive(s.(logins := s.logins[l := phase]))
  {
    hide HashesAreSound, HoldsReset;
    var s' := s.(logins := s.logins[l := phase]);
    SameHashesAreSound(s, s');
    forall d | d in s'.confirms ensures ConfirmKnows(s', d, s'.confirms[d]) {
      assert ConfirmKnows(s, d, s.confirms[d]);
    }
    forall m | m in s'.logins ensures LoginKnows(s', m, s'.logins[m]) {
      assert m != l ==> LoginKnows(s, m, s.logins[m]);
    }
    forall id | id in s'.resets && s'.resets[id].used ensures UsedBySome(s', id) {
      assert UsedBySome(s, id);
    }
  }

  /** Rows may appear, and deadlines move, under running processes. */
  lemma SameProcessesAreSound(s: State, s': State)
    requires ProcessesAreSound(s) && s'.confirms == s.confirms && s'.logins == s.logins && s'.retired == s.retired
    requires s.users.Keys <= s'.users.Keys
    requires forall id :: id in s.resets ==>
               id in s'.resets && s'.resets[id].user == s.resets[id].user && s'.resets[id].used == s.resets[id].used
    ensures ProcessesAreSound(s')
  {
    forall d | d in s'.confirms ensures ConfirmKnows(s', d, s'.confirms[d]) {
      assert ConfirmKnows(s, d, s.confirms[d]);
    }
    forall l | l in s'.logins ensures LoginKnows(s', l, s'.logins[l]) {
      assert LoginKnows(s, l, s.logins[l]);
    }
  }

  lemma RowsKeepConsistent(s: State, a: Action)
    requires Consistent(s) && (a.Register? || a.RaiseCost? || a.Mask? || a.Issue? || a.Expire?)
    ensures Consistent(Next(s, a))
  {
    hide HashesAreSound, ProcessesAreSound, ConfirmKnows, LoginKnows, UserVerifies, MakerFinished;
    var s' := Next(s, a);
    match a
    case Register(user, password) =>
      hide Grows;
      SameProcessesAreSound(s, s');
      RegisterKeepsHashes(s, user, password);
    case RaiseCost =>
      SameProcessesAreSound(s, s');
      SameHashesAreSound(s, s');
    case _ =>
      OpenRowsChange(s, a);
      SameProcessesAreSound(s, s');
      SameHashesAreSound(s, s');
  }

  /** Masking, issuing and expiring touch no hash and no stamp. */
  lemma OpenRowsChange(s: State, a: Action)
    requires a.Mask? || a.Issue? || a.Expire?
    ensures var s' := Next(s, a);
            && Grows(s, s') && s'.confirms == s.confirms && s'.logins == s.logins
            && s'.retired == s.retired && s'.chosen == s.chosen && s'.users.Keys == s.users.Keys
            && (forall u :: u in s.users ==> s'.users[u].hash == s.users[u].hash)
            && (forall id :: id in s.resets ==>
                  id in s'.resets && s'.resets[id].user == s.resets[id].user && s'.resets[id].used == s.resets[id].used)
  {
    hide ResetLocked, UserLocked;
  }

  lemma RegisterKeepsHashes(s: State, user: nat, password: string)
    requires HashesAreSound(s)
    ensures HashesAreSound(Next(s, Register(user, password)))
  {
    var s' := Next(s, Register(user, password));
    if s' != s {
      RegistrationFinished(s', user);
    }
    hide MakerFinished;
    forall u | u in s'.users
      ensures UserVerifies(s', u) && MakerFinished(s', s'.users[u].hash) && (u, s'.users[u].hash) !in s'.retired
    {
      if u in s.users {
        FinishedStays(s, s', s.users[u].hash);
      }
    }
    forall r | r in s'.retired ensures MakerFinished(s', r.1) && r.0 in s'.users {
      FinishedStays(s, s', r.1);
    }
  }

  lemma RegistrationFinished(s: State, u: nat)
    requires u in s.users && s.users[u].hash.maker == Registration(u)
    ensures MakerFinished(s, s.users[u].hash)
  {
  }

  lemma RowsKeepExclusive(s: State, a: Action)
    requires Exclusive(s) && (a.Register? || a.RaiseCost? || a.Mask? || a.Issue? || a.Expire?)
    ensures Exclusive(Next(s, a))
  {
    hide HoldsReset, ResetLocked, UserLocked;
    var s' := Next(s, a);
    forall id | id in s'.resets && s'.resets[id].used ensures UsedBySome(s', id) {
      assert UsedBySome(s, id);
    }
  }

  // ------------------------------------------------------------ the writes

  /** The hash a confirmation is about to store was never stored before. */
  lemma OwnHashIsFresh(s: State, c: nat)
    requires Consistent(s) && c in s.confirms && s.confirms[c].Written?
    ensures (s.confirms[c].user, s.confirms[c].hash) !in s.retired
    ensures forall u :: u in s.users ==> s.users[u].hash != s.confirms[c].hash
  {
    assert ConfirmKnows(s, c, s.confirms[c]);
    assert !MakerFinished(s, s.confirms[c].hash);
  }

  lemma OwnRehashIsFresh(s: State, l: nat)
    requires Consistent(s) && l in s.logins && s.logins[l].HasRehashed?
    ensures (s.logins[l].user, s.logins[l].to) !in s.retired
    ensures forall u :: u in s.users ==> s.users[u].hash != s.logins[l].to
  {
    assert LoginKnows(s, l, s.logins[l]);
    assert !MakerFinished(s, s.logins[l].to);
  }

  lemma CommitKeepsConsistent(s: State, c: nat)
    requires Consistent(s) && Exclusive(s) && c in s.confirms && s.confirms[c].Written?
    ensures Consistent(CommitStep(s, c, s.confirms[c]))
  {
    hide HashesAreSound, ProcessesAreSound, Exclusive, CommitStep;
    CommitKeepsHashes(s, c);
    CommitKeepsProcesses(s, c);
  }

  lemma CommitKeepsHashes(s: State, c: nat)
    requires Consistent(s) && c in s.confirms && s.confirms[c].Written?
    ensures HashesAreSound(CommitStep(s, c, s.confirms[c]))
  {
    hide LoginKnows;
    var phase := s.confirms[c];
    var s' := CommitStep(s, c, phase);
    assert ConfirmKnows(s, c, phase);
    OwnHashIsFresh(s, c);
    assert MakerFinished(s', phase.hash);
    hide MakerFinished;
    forall u | u in s'.users
      ensures UserVerifies(s', u) && MakerFinished(s', s'.users[u].hash) && (u, s'.users[u].hash) !in s'.retired
    {
      FinishedStays(s, s', s.users[u].hash);
    }
    forall r | r in s'.retired ensures MakerFinished(s', r.1) && r.0 in s'.users {
      FinishedStays(s, s', r.1);
    }
  }

  lemma CommitKeepsProcesses(s: State, c: nat)
    requires ProcessesAreSound(s) && Exclusive(s) && c in s.confirms && s.confirms[c].Written?
    ensures ProcessesAreSound(CommitStep(s, c, s.confirms[c]))
  {
    hide UsedBySome;
    var phase := s.confirms[c];
    var s' := CommitStep(s, c, phase);
    assert ConfirmKnows(s, c, phase);
    forall d | d in s'.confirms ensures ConfirmKnows(s', d, s'.confirms[d]) {
      assert d != c ==> ConfirmKnows(s, d, s.confirms[d]) && !HoldsReset(s.confirms[d], phase.id);
    }
    forall l | l in s'.logins ensures LoginKnows(s', l, s'.logins[l]) {
      assert LoginKnows(s, l, s.logins[l]);
    }
  }

  lemma CommitKeepsExclusive(s: State, c: nat)
    requires Consistent(s) && Exclusive(s) && c in s.confirms && s.confirms[c].Written?
    ensures Exclusive(CommitStep(s, c, s.confirms[c]))
  {
    hide MakerFinished, UserVerifies, LoginKnows;
    var phase := s.confirms[c];
    var s' := CommitStep(s, c, phase);
    assert ConfirmKnows(s, c, phase);
    forall d | d in s.confirms && s.confirms[d].Confirmed? ensures s.confirms[d].id != phase.id {
      assert ConfirmKnows(s, d, s.confirms[d]);
    }
    forall id | id in s'.resets && s'.resets[id].used ensures UsedBySome(s', id) {
      if id == phase.id {
        assert s'.confirms[c].Confirmed? && s'.confirms[c].id == id;
      } else {
        assert UsedBySome(s, id);
        var d :| d in s.confirms && s.confirms[d].Confirmed? && s.confirms[d].id == id;
        assert s'.confirms[d] == s.confirms[d];
      }
    }
  }

  lemma SwapKeepsConsistent(s: State, l: nat)
    requires Consistent(s) && l in s.logins && s.logins[l].HasRehashed?
    requires var p := s.logins[l]; p.user in s.users && s.users[p.user].hash == p.from
    ensures var p := s.logins[l];
            Consistent(s.(users := s.users[p.user := s.users[p.user].(hash := p.to)],
                          logins := s.logins[l := Won(p.user, p.from, p.to)],
                          retired := s.retired + {(p.user, p.from)}))
  {
    var p := s.logins[l];
    var s' := s.(users := s.users[p.user := s.users[p.user].(hash := p.to)],
                 logins := s.logins[l := Won(p.user, p.from, p.to)],
                 retired := s.retired + {(p.user, p.from)});
    assert LoginKnows(s, l, p) && UserVerifies(s, p.user);
    OwnRehashIsFresh(s, l);
    assert MakerFinished(s', p.to);
    hide MakerFinished;
    forall u | u in s'.users
      ensures UserVerifies(s', u) && MakerFinished(s', s'.users[u].hash) && (u, s'.users[u].hash) !in s'.retired
    {
      FinishedStays(s, s', s.users[u].hash);
    }
    forall r | r in s'.retired ensures MakerFinished(s', r.1) && r.0 in s'.users {
      FinishedStays(s, s', r.1);
    }
    forall d | d in s'.confirms ensures ConfirmKnows(s', d, s'.confirms[d]) {
      assert ConfirmKnows(s, d, s.confirms[d]);
    }
    forall m | m in s'.logins ensures LoginKnows(s', m, s'.logins[m]) {
      assert m != l ==> LoginKnows(s, m, s.logins[m]);
    }
  }

  lemma SwapKeepsExclusive(s: State, l: nat)
    requires Consistent(s) && Exclusive(s) && l in s.logins && s.logins[l].HasRehashed?
    requires var p := s.logins[l]; p.user in s.users && s.users[p.user].hash == p.from
    ensures var p := s.logins[l];
            Exclusive(s.(users := s.users[p.user := s.users[p.user].(hash := p.to)],
                         logins := s.logins[l := Won(p.user, p.from, p.to)],
                         retired := s.retired + {(p.user, p.from)}))
  {
    hide MakerFinished, UserVerifies, HoldsReset, ConfirmKnows;
    var p := s.logins[l];
    var s' := s.(users := s.users[p.user := s.users[p.user].(hash := p.to)],
                 logins := s.logins[l := Won(p.user, p.from, p.to)],
                 retired := s.retired + {(p.user, p.from)});
    assert (p.user, p.from) !in s.retired;
    forall m | m in s.logins && s.logins[m].Won? ensures (s.logins[m].user, s.logins[m].from) != (p.user, p.from) {
      assert LoginKnows(s, m, s.logins[m]);
    }
    forall id | id in s'.resets && s'.resets[id].used ensures UsedBySome(s', id) {
      assert UsedBySome(s, id);
    }
  }

  // ----------------------------------------------------------- every step

  lemma ConfirmKeeps(s: State, c: nat, phase: Confirming)
    requires Consistent(s) && Exclusive(s) && !phase.Confirmed? && ConfirmKnows(s, c, phase)
    requires c in s.confirms ==> !s.confirms[c].Confirmed?
    requires phase.Stamped? || phase.Written? ==>
               forall d :: d in s.confirms && d != c ==> !HoldsReset(s.confirms[d], phase.id)
    ensures Consistent(Confirm(s, c, phase)) && Exclusive(Confirm(s, c, phase))
  {
    hide Consistent, Exclusive, Confirm, ConfirmKnows;
    ConfirmKeepsConsistent(s, c, phase);
    ConfirmKeepsExclusive(s, c, phase);
  }

  lemma KnownOf(s: State, c: nat)
    requires Consistent(s) && c in s.confirms
    ensures ConfirmKnows(s, c, s.confirms[c])
  {
    hide HashesAreSound;
  }

  lemma ConfirmationSteps(s: State, a: Action)
    requires Consistent(s) && Exclusive(s)
    requires a.HashNew? || a.Begin? || a.Check? || a.Rollback?
    ensures Consistent(Next(s, a)) && Exclusive(Next(s, a))
  {
    hide Consistent, Exclusive, CheckStep, IsUsable;
    if a.c in s.confirms {
      KnownOf(s, a.c);
    }
    match a
    case HashNew(c, token, password) =>
      if c !in s.confirms { ConfirmKeeps(s, c, Hashed(token, Hash(password, s.cost, Confirmation(c)))); }
    case Begin(c, now) =>
      if c in s.confirms && s.confirms[c].Hashed? {
        ConfirmKeeps(s, c, Begun(s.confirms[c].token, s.confirms[c].hash, now));
      }
    case Check(c, now) =>
      if c in s.confirms && s.confirms[c].Begun? { CheckingKeeps(s, c, now); }
    case Rollback(c) =>
      if c in s.confirms && !s.confirms[c].Confirmed? { ConfirmKeeps(s, c, Abandoned); }
  }

  lemma CheckingKeeps(s: State, c: nat, now: nat)
    requires Consistent(s) && Exclusive(s) && c in s.confirms && s.confirms[c].Begun?
    ensures Consistent(CheckStep(s, c, s.confirms[c], now)) && Exclusive(CheckStep(s, c, s.confirms[c], now))
  {
    hide Consistent, Exclusive, IsUsable;
    KnownOf(s, c);
    var phase := s.confirms[c];
    ConfirmKeeps(s, c, if phase.token in s.resets && IsUsable(s.resets[phase.token], now)
                       then Checked(phase.token, s.resets[phase.token].user, phase.hash, phase.startedAt)
                       else Abandoned);
  }

  lemma LockingSteps(s: State, a: Action)
    requires Consistent(s) && Exclusive(s) && (a.Stamp? || a.Write?)
    ensures Consistent(Next(s, a)) && Exclusive(Next(s, a))
  {
    var c := a.c;
    if c in s.confirms {
      var phase := s.confirms[c];
      assert ConfirmKnows(s, c, phase);
      if a.Stamp? && phase.Checked? && !ResetLocked(s, phase.id) {
        hide Consistent, Exclusive;
        ConfirmKeeps(s, c, if phase.id in s.resets && IsUsable(s.resets[phase.id], phase.startedAt)
                           then Stamped(phase.id, phase.user, phase.hash) else Abandoned);
      } else if a.Write? && phase.Stamped? && !UserLocked(s, phase.user) {
        assert forall d :: d in s.confirms && d != c ==> !HoldsReset(s.confirms[d], phase.id);
        hide Consistent, Exclusive;
        ConfirmKeeps(s, c, if phase.user in s.users && s.users[phase.user].live
                           then Written(phase.id, phase.user, phase.hash) else Abandoned);
      }
    }
  }

  lemma LoginSteps(s: State, a: Action)
    requires Consistent(s) && Exclusive(s) && (a.Login? || a.Rehash? || a.Swap?)
    ensures Consistent(Next(s, a)) && Exclusive(Next(s, a))
  {
    hide Consistent, Exclusive, LoginStep, SwapStep;
    match a
    case Login(l, user, password) =>
      if l !in s.logins { ReadingKeeps(s, l, user, password); }
    case Rehash(l) =>
      if l in s.logins && s.logins[l].HasRead? {
        var from := s.logins[l].from;
        LoginKeeps(s, l, HasRehashed(s.logins[l].user, from, Hash(from.password, s.cost, Rehashing(l))));
      }
    case Swap(l) =>
      if l in s.logins && s.logins[l].HasRehashed? { SwappingKeeps(s, l); }
  }

  lemma ReadingKeeps(s: State, l: nat, user: nat, password: string)
    requires Consistent(s) && Exclusive(s) && l !in s.logins
    ensures Consistent(LoginStep(s, l, user, password)) && Exclusive(LoginStep(s, l, user, password))
  {
    hide Consistent, Exclusive;
    LoginKeeps(s, l, if user in s.users && s.users[user].live && Verifies(s.users[user].hash, password)
                        && s.users[user].hash.cost < s.cost
                     then HasRead(user, s.users[user].hash) else Left);
  }

  lemma SwappingKeeps(s: State, l: nat)
    requires Consistent(s) && Exclusive(s) && l in s.logins && s.logins[l].HasRehashed?
    ensures Consistent(SwapStep(s, l, s.logins[l])) && Exclusive(SwapStep(s, l, s.logins[l]))
  {
    hide Consistent, Exclusive, UserLocked, LoginKnows;
    var p := s.logins[l];
    if UserLocked(s, p.user) {
    } else if p.user in s.users && s.users[p.user].live && s.users[p.user].hash == p.from {
      SwapKeepsConsistent(s, l);
      SwapKeepsExclusive(s, l);
    } else {
      LeavingKnows(s, l);
      LoginKeeps(s, l, Left);
    }
  }

  lemma LeavingKnows(s: State, l: nat)
    ensures LoginKnows(s, l, Left)
  {
  }

  lemma StepKeepsConsistent(s: State, a: Action)
    requires Consistent(s) && Exclusive(s)
    ensures Consistent(Next(s, a)) && Exclusive(Next(s, a))
  {
    hide Consistent, Exclusive;
    if a.Register? || a.RaiseCost? || a.Mask? || a.Issue? || a.Expire? {
      hide Next;
      RowsKeepConsistent(s, a);
      RowsKeepExclusive(s, a);
    } else if a.HashNew? || a.Begin? || a.Check? || a.Rollback? {
      hide Next;
      ConfirmationSteps(s, a);
    } else if a.Stamp? || a.Write? {
      hide Next;
      LockingSteps(s, a);
    } else if a.Commit? {
      if a.c in s.confirms && s.confirms[a.c].Written? {
        hide CommitStep;
        CommitKeepsConsistent(s, a.c);
        CommitKeepsExclusive(s, a.c);
      }
    } else {
      hide Next;
      LoginSteps(s, a);
    }
  }

  // ------------------------------------------------------------ every run

  lemma {:induction false} RunsAreConsistent(actions: seq<Action>)
    ensures Consistent(Run(actions)) && Exclusive(Run(actions))
  {
    if actions == [] {
    } else {
      hide Next, Consistent, Exclusive;
      RunsAreConsistent(actions[..|actions| - 1]);
      StepKeepsConsistent(Run(actions[..|actions| - 1]), actions[|actions| - 1]);
    }
  }

  /** In every interleaving of logins, rehashes and confirmations the stored hash
      verifies the last committed chosen password, and no other. */
  lemma {:induction false} StoredHashVerifiesTheChosen(actions: seq<Action>, user: nat, password: string)
    requires user in Run(actions).users
    ensures user in Run(actions).chosen
    ensures Verifies(Run(actions).users[user].hash, password) <==> password == Run(actions).chosen[user]
  {
    hide Run;
    RunsAreConsistent(actions);
    assert UserVerifies(Run(actions), user);
  }

  /** A rehash that read a hash the account no longer has changes no account. */
  lemma StaleRehashChangesNothing(actions: seq<Action>, l: nat)
    requires var s := Run(actions);
             && l in s.logins && s.logins[l].HasRehashed?
             && (s.logins[l].user, s.logins[l].from) in s.retired
    ensures Next(Run(actions), Swap(l)).users == Run(actions).users
  {
    hide Run, UserVerifies, MakerFinished, UserLocked, ConfirmKnows, LoginKnows, Exclusive;
    RunsAreConsistent(actions);
    var s := Run(actions);
    var p := s.logins[l];
    assert p.user in s.users ==> s.users[p.user].hash != p.from;
  }

  /** Of all the rehashes that read one hash of an account at most one wins. */
  lemma OneRehashWins(actions: seq<Action>, l: nat, m: nat)
    requires var s := Run(actions);
             && l in s.logins && m in s.logins && s.logins[l].Won? && s.logins[m].Won?
             && s.logins[l].user == s.logins[m].user && s.logins[l].from == s.logins[m].from
    ensures l == m
  {
    hide Run, Consistent;
    RunsAreConsistent(actions);
  }

  /** A reset is spent exactly when a confirmation of it committed its password,
      and there is only one such confirmation. */
  lemma ResetsAreSingleUse(actions: seq<Action>, id: nat)
    requires id in Run(actions).resets
    ensures var s := Run(actions);
            && (s.resets[id].used <==>
                  exists c :: c in s.confirms && s.confirms[c].Confirmed? && s.confirms[c].id == id)
            && (forall c, d ::
                  c in s.confirms && d in s.confirms && s.confirms[c].Confirmed? && s.confirms[d].Confirmed? ==>
                  (s.confirms[c].id == id == s.confirms[d].id ==> c == d))
            && (forall c :: c in s.confirms && s.confirms[c].Confirmed? && s.confirms[c].id == id ==>
                  s.confirms[c].user == s.resets[id].user)
  {
    hide Run, LoginKnows, UserVerifies, MakerFinished;
    RunsAreConsistent(actions);
    var s := Run(actions);
    if s.resets[id].used {
      assert UsedBySome(s, id);
    }
    forall c | c in s.confirms && s.confirms[c].Confirmed? && s.confirms[c].id == id
      ensures s.resets[id].used && s.confirms[c].user == s.resets[id].user
    {
      assert ConfirmKnows(s, c, s.confirms[c]);
    }
  }
}
