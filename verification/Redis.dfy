/** The part of Redis the counters use: sorted sets of scored members, integer
    counters, and a deadline on each key. Times are milliseconds of one clock. */
module Redis {
  import opened Results
  import opened Decimal

  datatype SortedSet = SortedSet(members: map<string, nat>, deadline: Option<nat>)
  datatype Counter = Counter(value: nat, deadline: Option<nat>)
  datatype Db = Db(sets: map<string, SortedSet>, counters: map<string, Counter>)

  const EMPTY := Db(map[], map[])

  // -------------------------------------------------------------- commands

  function Members(db: Db, name: string): map<string, nat> {
    if name in db.sets then db.sets[name].members else map[]
  }

  /** ZREMRANGEBYSCORE name -inf max; a set left empty stops existing. */
  function ZRemRangeByScore(db: Db, name: string, max: int): Db {
    if name !in db.sets then db
    else
      var kept := After(db.sets[name].members, max);
      if kept == map[] then db.(sets := db.sets - {name})
      else db.(sets := db.sets[name := db.sets[name].(members := kept)])
  }

  function After(members: map<string, nat>, max: int): map<string, nat> {
    map x | x in members && members[x] > max :: members[x]
  }

  function ZAdd(db: Db, name: string, score: nat, member: string): Db {
    var current := if name in db.sets then db.sets[name] else SortedSet(map[], None);
    db.(sets := db.sets[name := current.(members := current.members[member := score])])
  }

  function Incr(db: Db, name: string): (Db, nat) {
    var current := if name in db.counters then db.counters[name] else Counter(0, None);
    (db.(counters := db.counters[name := current.(value := current.value + 1)]), current.value + 1)
  }

  /** PEXPIRE; a key told to live for no time at all is deleted. */
  function PExpireSet(db: Db, name: string, now: nat, ttl: nat): Db {
    if name !in db.sets then db
    else if ttl == 0 then db.(sets := db.sets - {name})
    else db.(sets := db.sets[name := db.sets[name].(deadline := Some(now + ttl))])
  }

  function PExpireCounter(db: Db, name: string, now: nat, ttl: nat): Db {
    if name !in db.counters then db
    else if ttl == 0 then db.(counters := db.counters - {name})
    else db.(counters := db.counters[name := db.counters[name].(deadline := Some(now + ttl))])
  }

  function Del(db: Db, name: string): Db {
    Db(db.sets - {name}, db.counters - {name})
  }

  /** Expiry takes a key whose deadline has come; a key may also outlive it. */
  function Evict(db: Db, name: string, now: nat): Db {
    var overdue := (d: Option<nat>) => d.Some? && d.value <= now;
    Db(if name in db.sets && overdue(db.sets[name].deadline) then db.sets - {name} else db.sets,
       if name in db.counters && overdue(db.counters[name].deadline) then db.counters - {name} else db.counters)
  }

  /** ZCARD over the members scored above a bound. */
  function Later(members: map<string, nat>, bound: int): nat {
    |set x | x in members && members[x] > bound|
  }

  /** The score ZRANGE 0 0 WITHSCORES answers, if there is a member. */
  function Oldest(members: map<string, nat>): (score: Option<nat>)
    ensures score.None? <==> members == map[]
    ensures score.Some? ==> exists x :: x in members && members[x] == score.value
    ensures score.Some? ==> forall x :: x in members ==> score.value <= members[x]
  {
    if members == map[] then None
    else
      assert exists x :: x in members;
      HasLeast(members.Values);
      var least :| IsLeast(members.Values, least);
      assert forall x :: x in members ==> members[x] in members.Values;
      Some(least)
  }

  predicate IsLeast(scores: set<nat>, least: nat) {
    least in scores && forall s :: s in scores ==> least <= s
  }

  lemma {:induction false} HasLeast(scores: set<nat>)
    requires scores != {}
    ensures exists least :: IsLeast(scores, least)
  {
    var s :| s in scores;
    var rest := scores - {s};
    if rest == {} {
      assert forall t :: t in scores ==> t == s || t in rest;
      assert IsLeast(scores, s);
    } else {
      HasLeast(rest);
      var least :| IsLeast(rest, least);
      assert forall t :: t in scores ==> t == s || t in rest;
      assert IsLeast(scores, if s < least then s else least);
    }
  }

  /** Whether a call is answered; one that is not may have been applied or not. */
  datatype Line = Up | Down(applied: bool)

  predicate Reaches(line: Line) {
    line.Up? || line.applied
  }

  /** The connection the counters share. */
  class Client {
    var db: Db

    constructor ()
      ensures db == EMPTY
    {
      db := EMPTY;
    }

    /** Between two calls other connections may leave any database behind. */
    method Elsewhere(db: Db)
      modifies this
      ensures this.db == db
    {
      this.db := db;
    }
  }

  // ------------------------------------------------------------- key names

  datatype Namespace = RateLimits | FailureCounts

  function Prefix(ns: Namespace): string {
    match ns
    case RateLimits => "ratelimit"
    case FailureCounts => "failures"
  }

  function HitsKey(ns: Namespace, window: nat, key: string): string {
    Prefix(ns) + ":hits:" + (Dec(window) + ":" + key)
  }

  function SequenceKey(ns: Namespace, window: nat, key: string): string {
    Prefix(ns) + ":seq:" + (Dec(window) + ":" + key)
  }

  /** Whatever the caller's key holds, two names are equal only when namespace,
      window and key all are, and a set is never named like a counter. */
  lemma KeysNeverCollide(ns1: Namespace, w1: nat, k1: string, ns2: Namespace, w2: nat, k2: string)
    ensures HitsKey(ns1, w1, k1) == HitsKey(ns2, w2, k2) <==> ns1 == ns2 && w1 == w2 && k1 == k2
    ensures SequenceKey(ns1, w1, k1) == SequenceKey(ns2, w2, k2) <==> ns1 == ns2 && w1 == w2 && k1 == k2
    ensures HitsKey(ns1, w1, k1) != SequenceKey(ns2, w2, k2)
  {
    if HitsKey(ns1, w1, k1) == HitsKey(ns2, w2, k2) {
      NamedKeysDiffer(ns1, ":hits:", w1, k1, ns2, ":hits:", w2, k2);
    }
    if SequenceKey(ns1, w1, k1) == SequenceKey(ns2, w2, k2) {
      NamedKeysDiffer(ns1, ":seq:", w1, k1, ns2, ":seq:", w2, k2);
    }
    if HitsKey(ns1, w1, k1) == SequenceKey(ns2, w2, k2) {
      NamedKeysDiffer(ns1, ":hits:", w1, k1, ns2, ":seq:", w2, k2);
    }
  }

  lemma NamedKeysDiffer(ns1: Namespace, p1: string, w1: nat, k1: string,
                        ns2: Namespace, p2: string, w2: nat, k2: string)
    requires p1 in {":hits:", ":seq:"} && p2 in {":hits:", ":seq:"}
    requires Prefix(ns1) + p1 + (Dec(w1) + ":" + k1) == Prefix(ns2) + p2 + (Dec(w2) + ":" + k2)
    ensures ns1 == ns2 && p1 == p2 && w1 == w2 && k1 == k2
  {
    hide Dec;
    NamespaceShows(ns1, p1, Dec(w1) + ":" + k1, ns2, p2, Dec(w2) + ":" + k2);
    SeparatedIsInjective(Dec(w1), k1, Dec(w2), k2, ':');
    DecIsInjective(w1, w2);
  }

  lemma NamespaceShows(ns1: Namespace, p1: string, t1: string, ns2: Namespace, p2: string, t2: string)
    requires p1 in {":hits:", ":seq:"} && p2 in {":hits:", ":seq:"}
    requires Prefix(ns1) + p1 + t1 == Prefix(ns2) + p2 + t2
    ensures ns1 == ns2 && p1 == p2 && t1 == t2
  {
    var n1, n2 := Prefix(ns1) + p1 + t1, Prefix(ns2) + p2 + t2;
    assert n1[0] == Prefix(ns1)[0] && n2[0] == Prefix(ns2)[0];
    var n := |Prefix(ns1)|;
    assert n1[n + 1] == p1[1] && n2[n + 1] == p2[1];
    assert t1 == n1[n + |p1|..] && t2 == n2[n + |p2|..];
  }

  /** The member a hit is stored under. */
  function MemberName(now: nat, n: nat): string {
    Dec(now) + "-" + Dec(n)
  }

  lemma MemberNameIsInjective(t1: nat, n1: nat, t2: nat, n2: nat)
    requires MemberName(t1, n1) == MemberName(t2, n2)
    ensures t1 == t2 && n1 == n2
  {
    SeparatedIsInjective(Dec(t1), Dec(n1), Dec(t2), Dec(n2), '-');
    DecIsInjective(t1, t2);
    DecIsInjective(n1, n2);
  }
}
