/** Checking a password at login, and rewriting a hash made at a cost since raised. */
module Credentials {
  import opened Results
  import opened IdentityTables
  import opened PasswordHash

  /** The caller as the rest of the application sees them, without a hash. */
  datatype Caller = Caller(id: nat, email: string, name: string, role: string)

  /** A password typed at a login, the salt drawn if its hash is made anew, and
      whether the write of that hash was lost. */
  datatype Login = Login(email: string, password: string, salt: seq<Base64.Byte>, lost: bool)

  /** None is the one refusal. */
  ghost function SignsIn(crypto: Crypto, cpus: nat, users: map<nat, User>, email: string, password: string)
    : Option<Caller>
  {
    match Owner(users, email)
    case None => None
    case Some(u) =>
      var row := users[u];
      if VerifyPassword(crypto, row.hash, password, cpus).None?
      then Some(Caller(u, row.email, row.name, row.role)) else None
  }

  /** The hash a login would put in place of the one it has just verified. */
  function Upgrade(crypto: Crypto, cpus: nat, hash: string, password: string, salt: seq<Base64.Byte>): Option<string> {
    if !NeedsRehash(hash, cpus) then None
    else
      match HashPassword(crypto, password, salt)
      case Success(updated) => Some(updated)
      case Failure(_) => None
  }

  function Replaced(users: map<nat, User>, u: nat, current: string, updated: string): map<nat, User> {
    if u in users && users[u].live && users[u].hash == current
    then users[u := users[u].(hash := updated)] else users
  }

  /** A login reads the accounts at one moment and writes at a later one. */
  ghost function AfterLogin(crypto: Crypto, cpus: nat, read: map<nat, User>, now: map<nat, User>, login: Login)
    : map<nat, User>
  {
    match SignsIn(crypto, cpus, read, login.email, login.password)
    case None => now
    case Some(caller) =>
      match Upgrade(crypto, cpus, read[caller.id].hash, login.password, login.salt)
      case None => now
      case Some(updated) => if login.lost then now else Replaced(now, caller.id, read[caller.id].hash, updated)
  }

  // ------------------------------------------------------------- the service

  class Service {
    const crypto: Crypto
    const cpus: nat
    const store: Database

    constructor (crypto: Crypto, cpus: nat, store: Database)
      ensures this.crypto == crypto && this.cpus == cpus && this.store == store
    {
      this.crypto, this.cpus, this.store := crypto, cpus, store;
    }

    /** `meanwhile` is what other requests have made of the accounts when the write comes. */
    method Authenticate(login: Login, meanwhile: map<nat, User>) returns (caller: Option<Caller>)
      requires UniqueAddresses(store.users)
      modifies store
      ensures caller == SignsIn(crypto, cpus, old(store.users), login.email, login.password)
      ensures store.Contents() ==
              old(store.Contents()).(users := AfterLogin(crypto, cpus, old(store.users), meanwhile, login))
    {
      var found := store.GetUserByEmail(login.email);
      if found.None? {
        store.users := meanwhile;
        return None;
      }
      var row := store.users[found.value];
      var answer := VerifyPassword(crypto, row.hash, login.password, cpus);
      store.users := meanwhile;
      if answer.Some? {
        return None;
      }
      Rehash(found.value, row.hash, login.password, login.salt, login.lost);
      return Some(Caller(found.value, row.email, row.name, row.role));
    }

    /** A failure here is logged and the login continues. */
    method Rehash(id: nat, currentHash: string, password: string, salt: seq<Base64.Byte>, lost: bool)
      modifies store
      ensures store.Contents() ==
              var updated := Upgrade(crypto, cpus, currentHash, password, salt);
              if updated.None? || lost then old(store.Contents())
              else old(store.Contents()).(users := Replaced(old(store.users), id, currentHash, updated.value))
    {
      if !NeedsRehash(currentHash, cpus) {
        return;
      }
      var updated := HashPassword(crypto, password, salt);
      if updated.Failure? {
        return;
      }
      if !lost {
        var _ := store.UpdateUserPasswordHash(id, updated.value, currentHash);
      }
    }
  }

  // ------------------------------------------------------------- who signs in

  /** A login signs in exactly the live account that has the address and whose hash
      the password verifies. */
  lemma SignsInIff(crypto: Crypto, cpus: nat, users: map<nat, User>, email: string, password: string, caller: Caller)
    requires UniqueAddresses(users)
    ensures SignsIn(crypto, cpus, users, email, password) == Some(caller) <==>
            && caller.id in users && users[caller.id].live && SameAddress(users[caller.id].email, email)
            && VerifyPassword(crypto, users[caller.id].hash, password, cpus).None?
            && caller.email == users[caller.id].email && caller.name == users[caller.id].name
            && caller.role == users[caller.id].role
  {
    hide VerifyPassword, SameAddress;
    if caller.id in users && users[caller.id].live && SameAddress(users[caller.id].email, email) {
      OwnerIsUnique(users, email, caller.id);
    }
  }

  // ------------------------------------------------------------- rehashing

  /** Replacing a hash by one of the password that verified it answers an attempt
      as before exactly when the attempt is too long for both, or shares the key of
      that password under both or under neither. */
  lemma RehashedAnswersAlikeIff(crypto: Crypto, cpus: nat, hash: string, password: string, salt: seq<Base64.Byte>,
                                attempt: string)
    requires Sound(crypto) && cpus >= 1 && |salt| == 16
    requires VerifyPassword(crypto, hash, password, cpus).None?
    requires HashPassword(crypto, password, salt).Success?
    ensures PasswordHash.Decode(hash, cpus).Success?
    ensures var h, updated := PasswordHash.Decode(hash, cpus).value, HashPassword(crypto, password, salt).value;
            var p, q := crypto.normal(password), crypto.normal(attempt);
            VerifyPassword(crypto, updated, attempt, cpus) == VerifyPassword(crypto, hash, attempt, cpus) <==>
              || Utf8Length(q) > 1024
              || (crypto.argon2(q, h.salt, h.passes, h.memory, h.threads, |h.key|)
                  == crypto.argon2(p, h.salt, h.passes, h.memory, h.threads, |h.key|) <==>
                  crypto.argon2(q, salt, 2, 19456, 1, 32) == crypto.argon2(p, salt, 2, 19456, 1, 32))
  {
    hide PasswordHash.Encode, PasswordHash.Decode, Utf8Length;
    DecodedIsReadable(hash, cpus);
    PasswordHash.DecodeOfEncode(
      Stored(19456, 2, 1, salt, crypto.argon2(crypto.normal(password), salt, 2, 19456, 1, 32)), cpus);
  }

  /** No two of these passwords share a key without sharing their normal form. */
  ghost predicate NoCollisions(crypto: Crypto, typed: set<string>) {
    forall p, q, salt, passes, memory, threads, size ::
      && p in typed && q in typed && size >= 16
      && crypto.argon2(crypto.normal(p), salt, passes, memory, threads, size)
         == crypto.argon2(crypto.normal(q), salt, passes, memory, threads, size)
      ==> crypto.normal(p) == crypto.normal(q)
  }

  lemma RehashChangesNoAnswer(crypto: Crypto, cpus: nat, typed: set<string>, hash: string, password: string,
                              salt: seq<Base64.Byte>, attempt: string)
    requires Sound(crypto) && cpus >= 1 && |salt| == 16
    requires NoCollisions(crypto, typed) && password in typed && attempt in typed
    requires VerifyPassword(crypto, hash, password, cpus).None?
    requires HashPassword(crypto, password, salt).Success?
    ensures VerifyPassword(crypto, HashPassword(crypto, password, salt).value, attempt, cpus)
            == VerifyPassword(crypto, hash, attempt, cpus)
  {
    RehashedAnswersAlikeIff(crypto, cpus, hash, password, salt, attempt);
    DecodedIsReadable(hash, cpus);
    hide HashPassword, PasswordHash.Decode, Utf8Length;
  }

  /** A login changes an account exactly when its password verified the live account
      of the address and is long enough for a new hash, the hash was due, the account
      is still live and has that very hash, and the write is not lost. Then the new
      hash verifies the password and is not due; nothing else ever changes. */
  lemma RehashLandsIff(crypto: Crypto, cpus: nat, read: map<nat, User>, now: map<nat, User>, login: Login, u: nat)
    requires Sound(crypto) && cpus >= 1 && |login.salt| == 16 && UniqueAddresses(read) && u in now
    ensures var after := AfterLogin(crypto, cpus, read, now, login);
            && after.Keys == now.Keys && after[u] == now[u].(hash := after[u].hash)
            && (after[u] != now[u] <==>
                  && u in read && read[u].live && SameAddress(read[u].email, login.email)
                  && VerifyPassword(crypto, read[u].hash, login.password, cpus).None?
                  && NeedsRehash(read[u].hash, cpus) && |crypto.normal(login.password)| >= 12
                  && now[u].live && now[u].hash == read[u].hash && !login.lost)
            && (after[u] != now[u] ==>
                  && VerifyPassword(crypto, after[u].hash, login.password, cpus).None?
                  && !NeedsRehash(after[u].hash, cpus))
  {
    hide HashPassword, VerifyPassword, NeedsRehash, Utf8Length, Sound, SignsIn, SameAddress;
    if SignsIn(crypto, cpus, read, login.email, login.password).Some? {
      SignedInVerifies(crypto, cpus, read, login.email, login.password);
      var caller := SignsIn(crypto, cpus, read, login.email, login.password).value;
      SignsInIff(crypto, cpus, read, login.email, login.password, caller);
      AcceptedLengths(crypto, login.password, login.salt);
      VerifiedIsNotTooLong(crypto, read[caller.id].hash, login.password, cpus);
      if HashPassword(crypto, login.password, login.salt).Success? {
        AcceptedPasswordsVerify(crypto, login.password, login.salt, login.password, cpus);
      }
    }
    if u in read {
      SignsInIff(crypto, cpus, read, login.email, login.password,
                 Caller(u, read[u].email, read[u].name, read[u].role));
    }
  }

  lemma VerifiedIsNotTooLong(crypto: Crypto, hash: string, password: string, cpus: nat)
    requires VerifyPassword(crypto, hash, password, cpus).None?
    ensures Utf8Length(crypto.normal(password)) <= 1024
  {
  }

  lemma SignedInVerifies(crypto: Crypto, cpus: nat, users: map<nat, User>, email: string, password: string)
    requires SignsIn(crypto, cpus, users, email, password).Some?
    ensures var u := SignsIn(crypto, cpus, users, email, password).value.id;
            u in users && users[u].live && VerifyPassword(crypto, users[u].hash, password, cpus).None?
  {
    hide VerifyPassword, SameAddress;
  }

  // ------------------------------------------------------------- whole runs

  /** The accounts over a run of logins that overlap in any way: each reads some
      state no later than the one it writes to. */
  ghost predicate IsRun(crypto: Crypto, cpus: nat, states: seq<map<nat, User>>, logins: seq<Login>, seen: seq<nat>) {
    && |states| == |logins| + 1 && |seen| == |logins|
    && forall i :: 0 <= i < |logins| ==>
         seen[i] <= i && states[i + 1] == AfterLogin(crypto, cpus, states[seen[i]], states[i], logins[i])
  }

  ghost predicate SameAnswers(crypto: Crypto, cpus: nat, typed: set<string>, before: string, after: string) {
    forall attempt :: attempt in typed ==>
      VerifyPassword(crypto, after, attempt, cpus) == VerifyPassword(crypto, before, attempt, cpus)
  }

  /** Nothing but hashes differs, and no hash answers differently. */
  ghost predicate Alike(crypto: Crypto, cpus: nat, typed: set<string>, before: map<nat, User>, after: map<nat, User>) {
    && after.Keys == before.Keys
    && forall u :: u in before ==>
         && after[u] == before[u].(hash := after[u].hash)
         && SameAnswers(crypto, cpus, typed, before[u].hash, after[u].hash)
  }

  lemma LoginKeepsAlike(crypto: Crypto, cpus: nat, typed: set<string>, start: map<nat, User>, read: map<nat, User>,
                        now: map<nat, User>, login: Login)
    requires Sound(crypto) && cpus >= 1 && |login.salt| == 16
    requires NoCollisions(crypto, typed) && login.password in typed
    requires Alike(crypto, cpus, typed, start, now)
    ensures Alike(crypto, cpus, typed, start, AfterLogin(crypto, cpus, read, now, login))
  {
    hide VerifyPassword, HashPassword, NeedsRehash, NoCollisions;
    var after := AfterLogin(crypto, cpus, read, now, login);
    if after != now {
      var u := SignsIn(crypto, cpus, read, login.email, login.password).value.id;
      forall attempt | attempt in typed
        ensures VerifyPassword(crypto, after[u].hash, attempt, cpus)
                == VerifyPassword(crypto, start[u].hash, attempt, cpus)
      {
        RehashChangesNoAnswer(crypto, cpus, typed, now[u].hash, login.password, login.salt, attempt);
      }
    }
  }

  /** However many logins overlap, with whatever salts and lost writes: the accounts
      differ in nothing but their hashes, and none of the passwords typed gets
      another answer than at the start. */
  lemma {:induction false} LoginsChangeNoAnswer(crypto: Crypto, cpus: nat, typed: set<string>,
                                                states: seq<map<nat, User>>, logins: seq<Login>, seen: seq<nat>, i: nat)
    requires Sound(crypto) && cpus >= 1 && NoCollisions(crypto, typed)
    requires IsRun(crypto, cpus, states, logins, seen) && i <= |logins|
    requires forall k :: 0 <= k < |logins| ==> logins[k].password in typed && |logins[k].salt| == 16
    ensures Alike(crypto, cpus, typed, states[0], states[i])
  {
    hide NoCollisions, VerifyPassword, AfterLogin;
    if i > 0 {
      LoginsChangeNoAnswer(crypto, cpus, typed, states, logins, seen, i - 1);
      LoginKeepsAlike(crypto, cpus, typed, states[0], states[seen[i - 1]], states[i - 1], logins[i - 1]);
    }
  }

  /** So whoever a password signs in at the start it signs in at the end. */
  lemma LoginsChangeNobody(crypto: Crypto, cpus: nat, typed: set<string>, states: seq<map<nat, User>>,
                           logins: seq<Login>, seen: seq<nat>, email: string, password: string)
    requires Sound(crypto) && cpus >= 1 && NoCollisions(crypto, typed) && password in typed
    requires IsRun(crypto, cpus, states, logins, seen) && UniqueAddresses(states[0])
    requires forall k :: 0 <= k < |logins| ==> logins[k].password in typed && |logins[k].salt| == 16
    ensures SignsIn(crypto, cpus, states[|logins|], email, password)
            == SignsIn(crypto, cpus, states[0], email, password)
  {
    LoginsChangeNoAnswer(crypto, cpus, typed, states, logins, seen, |logins|);
    hide NoCollisions, VerifyPassword, IsRun, SameAddress;
    var first, last := states[0], states[|logins|];
    if u :| u in first && Owns(first[u], email) {
      OwnerIsUnique(first, email, u);
      OwnerIsUnique(last, email, u);
    }
  }
}
