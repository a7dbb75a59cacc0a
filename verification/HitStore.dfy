/** One tier's slice of Redis for one caller key — a sorted set and its sequence
    counter — and how it stays in step with a plain log of the hits recorded. */
module HitStore {
  import opened Results
  import opened Redis

  /** One limit over one window of milliseconds. */
  datatype Tier = Tier(limit: int, window: nat)

  // ------------------------------------------------------------ plain logs

  /** How many logged times lie after a bound. */
  function CountAfter(log: seq<nat>, bound: int): (n: nat)
    ensures n <= |log|
  {
    if log == [] then 0
    else CountAfter(log[..|log| - 1], bound) + if log[|log| - 1] > bound then 1 else 0
  }

  lemma CountOfAppended(log: seq<nat>, t: nat, bound: int)
    ensures CountAfter(log + [t], bound) == CountAfter(log, bound) + if t > bound then 1 else 0
  {
    assert (log + [t])[..|log|] == log;
  }

  lemma {:induction false} CountIsAntitone(log: seq<nat>, low: int, high: int)
    requires low <= high
    ensures CountAfter(log, low) >= CountAfter(log, high)
  {
    if log != [] {
      CountIsAntitone(log[..|log| - 1], low, high);
    }
  }

  /** The tiers that keep their hits under one window share one set, and each
      adds to it: a hit weighs as many members as there are such tiers. */
  function Weight(tiers: seq<Tier>, window: nat): (n: nat)
    ensures n <= |tiers|
  {
    if tiers == [] then 0 else Weight(tiers[1..], window) + if tiers[0].window == window then 1 else 0
  }

  predicate DistinctWindows(tiers: seq<Tier>) {
    forall i, j :: 0 <= i < j < |tiers| ==> tiers[i].window != tiers[j].window
  }

  lemma {:induction false} WeightOfTier(tiers: seq<Tier>, tier: Tier)
    requires tier in tiers
    ensures Weight(tiers, tier.window) >= 1
    ensures DistinctWindows(tiers) ==> Weight(tiers, tier.window) == 1
  {
    if tier in tiers[1..] {
      WeightOfTier(tiers[1..], tier);
    } else if DistinctWindows(tiers) {
      WeightOfAbsent(tiers[1..], tier.window);
    }
  }

  lemma {:induction false} WeightOfAbsent(tiers: seq<Tier>, window: nat)
    requires forall i :: 0 <= i < |tiers| ==> tiers[i].window != window
    ensures Weight(tiers, window) == 0
  {
    if tiers != [] {
      WeightOfAbsent(tiers[1..], window);
    }
  }

  // ---------------------------------------------------------------- shelves

  datatype Shelf = Shelf(hits: Option<SortedSet>, sequence: Option<Counter>) {
    function Members(): map<string, nat> {
      if hits.Some? then hits.value.members else map[]
    }

    function Sequence(): nat {
      if sequence.Some? then sequence.value.value else 0
    }
  }

  const BARE := Shelf(None, None)

  function Trimmed(shelf: Shelf, window: nat, now: nat): Shelf {
    if shelf.hits.None? then shelf
    else
      var kept := After(shelf.hits.value.members, now - window);
      shelf.(hits := if kept == map[] then None else Some(shelf.hits.value.(members := kept)))
  }

  /** INCR, ZADD and the two PEXPIREs of one recorded hit. */
  function Recorded(shelf: Shelf, window: nat, now: nat): Shelf {
    var n := shelf.Sequence() + 1;
    if window == 0 then BARE
    else Shelf(Some(SortedSet(shelf.Members()[MemberName(now, n) := now], Some(now + window))),
               Some(Counter(n, Some(now + window))))
  }

  predicate Due(deadline: Option<nat>, now: nat) {
    deadline.Some? && deadline.value <= now
  }

  /** Either key may have been expired, once its deadline has come. */
  predicate MayDecay(shelf: Shelf, shelf': Shelf, now: nat) {
    && (shelf'.hits == shelf.hits || (shelf'.hits == None && shelf.hits.Some? && Due(shelf.hits.value.deadline, now)))
    && (shelf'.sequence == shelf.sequence ||
        (shelf'.sequence == None && shelf.sequence.Some? && Due(shelf.sequence.value.deadline, now)))
  }

  // ------------------------------------------------- agreement with the log

  predicate Named(member: string, score: nat, upTo: nat) {
    exists n: nat :: 1 <= n <= upTo && member == MemberName(score, n)
  }

  predicate Covers(deadline: Option<nat>, members: map<string, nat>, window: nat) {
    deadline.Some? && forall x :: x in members ==> members[x] + window <= deadline.value
  }

  /** The shelf agrees with the log, `extra` members of the newest hit ahead:
      after every bound still inside the window, it holds `weight` members for
      each logged hit, live members carry distinct numbered names, and neither
      deadline comes while a member is live. */
  ghost predicate Tracks(shelf: Shelf, log: seq<nat>, window: nat, weight: nat, extra: nat, now: nat) {
    var members := shelf.Members();
    && (forall bound: int :: now - window <= bound ==>
          Later(members, bound) == weight * CountAfter(log, bound) + if bound < now then extra else 0)
    && (forall x :: x in members ==> members[x] <= now)
    && (forall x :: x in members && members[x] > now - window ==> Named(x, members[x], shelf.Sequence()))
    && (shelf.hits.Some? ==> Covers(shelf.hits.value.deadline, members, window))
    && (shelf.sequence.Some? ==> Covers(shelf.sequence.value.deadline, members, window))
  }

  predicate AllLive(members: map<string, nat>, window: nat, now: nat) {
    forall x :: x in members ==> members[x] > now - window
  }

  lemma BareTracks(window: nat, weight: nat, now: nat)
    ensures Tracks(BARE, [], window, weight, 0, now)
  {
    var none: map<string, nat> := map[];
    forall bound: int ensures Later(none, bound) == 0 {
      assert (set x | x in none && none[x] > bound) == {};
    }
  }

  lemma TimePasses(shelf: Shelf, log: seq<nat>, window: nat, weight: nat, now: nat, later: nat)
    requires Tracks(shelf, log, window, weight, 0, now) && now <= later
    ensures Tracks(shelf, log, window, weight, 0, later)
  {
  }

  lemma TrimKeepsTrack(shelf: Shelf, log: seq<nat>, window: nat, weight: nat, extra: nat, now: nat)
    requires Tracks(shelf, log, window, weight, extra, now)
    ensures Tracks(Trimmed(shelf, window, now), log, window, weight, extra, now)
    ensures |Trimmed(shelf, window, now).Members()| == Later(shelf.Members(), now - window)
    ensures AllLive(Trimmed(shelf, window, now).Members(), window, now)
  {
    var members, kept := shelf.Members(), Trimmed(shelf, window, now).Members();
    forall bound: int | now - window <= bound ensures Later(kept, bound) == Later(members, bound) {
      assert (set x | x in kept && kept[x] > bound) == (set x | x in members && members[x] > bound);
    }
    assert kept.Keys == (set x | x in members && members[x] > now - window);
  }

  /** The name of a new hit is not in use, even when the sequence counter has
      expired and starts again from one. */
  lemma NewNameIsFresh(shelf: Shelf, log: seq<nat>, window: nat, weight: nat, extra: nat, now: nat)
    requires Tracks(shelf, log, window, weight, extra, now) && AllLive(shelf.Members(), window, now)
    ensures MemberName(now, shelf.Sequence() + 1) !in shelf.Members()
  {
    hide MemberName, Later, CountAfter;
    var members, n := shelf.Members(), shelf.Sequence() + 1;
    var name := MemberName(now, n);
    if name in members {
      assert Named(name, members[name], n - 1);
      var k: nat :| 1 <= k <= n - 1 && name == MemberName(members[name], k);
      MemberNameIsInjective(now, n, members[name], k);
      assert false;
    }
  }

  lemma FreshMemberCounts(members: map<string, nat>, name: string, now: nat, bound: int)
    requires name !in members && forall x :: x in members ==> members[x] <= now
    ensures Later(members[name := now], bound) == Later(members, bound) + if bound < now then 1 else 0
  {
    var members' := members[name := now];
    var before, after := set x | x in members && members[x] > bound, set x | x in members' && members'[x] > bound;
    assert after == if bound < now then before + {name} else before;
  }

  lemma NamesStay(members: map<string, nat>, upTo: nat, now: nat)
    requires forall x :: x in members ==> Named(x, members[x], upTo)
    ensures var members' := members[MemberName(now, upTo + 1) := now];
            forall x :: x in members' ==> Named(x, members'[x], upTo + 1)
  {
    hide MemberName;
    var name := MemberName(now, upTo + 1);
    var members' := members[name := now];
    forall x | x in members' ensures Named(x, members'[x], upTo + 1) {
      if x != name {
        var k: nat :| 1 <= k <= upTo && x == MemberName(members[x], k);
      }
    }
  }

  /** Recording adds exactly one member to what the shelf holds. */
  lemma RecordKeepsTrack(shelf: Shelf, log: seq<nat>, window: nat, weight: nat, extra: nat, now: nat)
    requires Tracks(shelf, log, window, weight, extra, now) && AllLive(shelf.Members(), window, now)
    requires window >= 1
    ensures Tracks(Recorded(shelf, window, now), log, window, weight, extra + 1, now)
    ensures AllLive(Recorded(shelf, window, now).Members(), window, now)
  {
    NewNameIsFresh(shelf, log, window, weight, extra, now);
    NamesStay(shelf.Members(), shelf.Sequence(), now);
    hide MemberName, Named, CountAfter, Later;
    var name := MemberName(now, shelf.Sequence() + 1);
    forall bound: int | now - window <= bound
      ensures Later(Recorded(shelf, window, now).Members(), bound) ==
              Later(shelf.Members(), bound) + if bound < now then 1 else 0
    {
      FreshMemberCounts(shelf.Members(), name, now, bound);
    }
  }

  /** Once every tier has added its member the hit belongs to the log. */
  lemma HitIsLogged(shelf: Shelf, log: seq<nat>, window: nat, weight: nat, now: nat)
    requires Tracks(shelf, log, window, weight, weight, now)
    ensures Tracks(shelf, log + [now], window, weight, 0, now)
  {
    hide Later, Named, CountAfter;
    var members := shelf.Members();
    forall bound: int | now - window <= bound
      ensures Later(members, bound) == weight * CountAfter(log + [now], bound)
    {
      CountOfAppended(log, now, bound);
    }
  }

  /** Expiry never takes a live member. */
  lemma DecayKeepsTrack(shelf: Shelf, shelf': Shelf, log: seq<nat>, window: nat, weight: nat, now: nat)
    requires Tracks(shelf, log, window, weight, 0, now) && MayDecay(shelf, shelf', now)
    ensures Tracks(shelf', log, window, weight, 0, now)
  {
    var members, members' := shelf.Members(), shelf'.Members();
    forall bound: int | now - window <= bound ensures Later(members', bound) == Later(members, bound) {
      assert (set x | x in members' && members'[x] > bound) == (set x | x in members && members[x] > bound);
    }
  }

  // --------------------------------------------------- shelves of a database

  function Look(db: Db, ns: Namespace, window: nat, key: string): Shelf {
    var hits, sequence := HitsKey(ns, window, key), SequenceKey(ns, window, key);
    Shelf(if hits in db.sets then Some(db.sets[hits]) else None,
          if sequence in db.counters then Some(db.counters[sequence]) else None)
  }

  lemma LookMembers(db: Db, ns: Namespace, window: nat, key: string)
    ensures Look(db, ns, window, key).Members() == Members(db, HitsKey(ns, window, key))
  {
    hide HitsKey, SequenceKey;
  }

  function TrimTier(db: Db, ns: Namespace, window: nat, key: string, now: nat): Db {
    ZRemRangeByScore(db, HitsKey(ns, window, key), now - window)
  }

  function RecordTier(db: Db, ns: Namespace, window: nat, key: string, now: nat): Db {
    var hits, sequence := HitsKey(ns, window, key), SequenceKey(ns, window, key);
    var (counted, n) := Incr(db, sequence);
    var added := ZAdd(counted, hits, now, MemberName(now, n));
    PExpireCounter(PExpireSet(added, hits, now, window), sequence, now, window)
  }

  lemma TrimTouchesOneShelf(db: Db, ns: Namespace, window: nat, key: string, now: nat,
                            ns': Namespace, window': nat, key': string)
    ensures Look(TrimTier(db, ns, window, key, now), ns', window', key') ==
            if (ns, window, key) == (ns', window', key') then Trimmed(Look(db, ns', window', key'), window, now)
            else Look(db, ns', window', key')
  {
    KeysNeverCollide(ns, window, key, ns', window', key');
    hide HitsKey, SequenceKey;
  }

  lemma RecordTouchesOneShelf(db: Db, ns: Namespace, window: nat, key: string, now: nat,
                              ns': Namespace, window': nat, key': string)
    ensures Look(RecordTier(db, ns, window, key, now), ns', window', key') ==
            if (ns, window, key) == (ns', window', key') then Recorded(Look(db, ns', window', key'), window, now)
            else Look(db, ns', window', key')
  {
    KeysNeverCollide(ns, window, key, ns', window', key');
    hide HitsKey, SequenceKey, MemberName;
  }

  lemma EvictMayDecay(db: Db, name: string, now: nat, ns: Namespace, window: nat, key: string)
    ensures MayDecay(Look(db, ns, window, key), Look(Evict(db, name, now), ns, window, key), now)
  {
    hide HitsKey, SequenceKey;
  }

  /** Every tier's shelf for a caller key agrees with that key's log. */
  ghost predicate KeyTracks(db: Db, ns: Namespace, tiers: seq<Tier>, key: string, log: seq<nat>, now: nat) {
    forall i :: 0 <= i < |tiers| ==>
      Tracks(Look(db, ns, tiers[i].window, key), log, tiers[i].window, Weight(tiers, tiers[i].window), 0, now)
  }

  lemma KeyTracksEvict(db: Db, name: string, ns: Namespace, tiers: seq<Tier>, key: string, log: seq<nat>, now: nat)
    requires KeyTracks(db, ns, tiers, key, log, now)
    ensures KeyTracks(Evict(db, name, now), ns, tiers, key, log, now)
  {
    forall i | 0 <= i < |tiers|
      ensures var w := tiers[i].window; Tracks(Look(Evict(db, name, now), ns, w, key), log, w, Weight(tiers, w), 0, now)
    {
      var w := tiers[i].window;
      EvictMayDecay(db, name, now, ns, w, key);
      hide Look, Tracks, MayDecay, Evict;
      DecayKeepsTrack(Look(db, ns, w, key), Look(Evict(db, name, now), ns, w, key), log, w, Weight(tiers, w), now);
    }
  }

  lemma KeyTracksLater(db: Db, ns: Namespace, tiers: seq<Tier>, key: string, log: seq<nat>, now: nat, later: nat)
    requires KeyTracks(db, ns, tiers, key, log, now) && now <= later
    ensures KeyTracks(db, ns, tiers, key, log, later)
  {
    forall i | 0 <= i < |tiers|
      ensures var w := tiers[i].window; Tracks(Look(db, ns, w, key), log, w, Weight(tiers, w), 0, later)
    {
      hide Tracks, Look;
      var w := tiers[i].window;
      TimePasses(Look(db, ns, w, key), log, w, Weight(tiers, w), now, later);
    }
  }

  // ------------------------------------------------------- the oldest hit

  /** The earliest logged time after a bound. */
  function OldestAfter(log: seq<nat>, bound: int): (oldest: Option<nat>)
    ensures oldest.Some? ==> oldest.value > bound && oldest.value in log
    ensures oldest.None? <==> CountAfter(log, bound) == 0
  {
    if log == [] then None
    else
      var last := log[|log| - 1];
      var earlier := OldestAfter(log[..|log| - 1], bound);
      if last > bound && (earlier.None? || last < earlier.value) then Some(last) else earlier
  }

  /** Nothing leaves the window before the oldest hit does, and then it does. */
  lemma {:induction false} OldestLeavesFirst(log: seq<nat>, bound: int, later: int)
    requires OldestAfter(log, bound).Some? && bound <= later
    ensures later < OldestAfter(log, bound).value ==> CountAfter(log, later) == CountAfter(log, bound)
    ensures OldestAfter(log, bound).value <= later ==> CountAfter(log, later) < CountAfter(log, bound)
  {
    var front := log[..|log| - 1];
    if OldestAfter(front, bound).Some? {
      OldestLeavesFirst(front, bound, later);
    } else {
      CountIsAntitone(front, bound, later);
    }
  }

  /** ZRANGE 0 0 on a trimmed shelf answers the oldest hit of the log. */
  lemma OldestAgrees(shelf: Shelf, log: seq<nat>, window: nat, weight: nat, now: nat)
    requires Tracks(shelf, log, window, weight, 0, now) && AllLive(shelf.Members(), window, now) && weight >= 1
    ensures |shelf.Members()| == weight * CountAfter(log, now - window)
    ensures Oldest(shelf.Members()) == OldestAfter(log, now - window)
  {
    hide CountAfter, Later, OldestAfter, Tracks;
    var members, bound := shelf.Members(), now - window;
    LaterOfAll(members, bound);
    TrackedCount(shelf, log, window, weight, now, bound);
    if members == map[] {
      NoneCounted(weight, CountAfter(log, bound));
    } else {
      OldestOfSome(shelf, log, window, weight, now);
    }
  }

  lemma TrackedCount(shelf: Shelf, log: seq<nat>, window: nat, weight: nat, now: nat, bound: int)
    requires Tracks(shelf, log, window, weight, 0, now) && bound >= now - window
    ensures Later(shelf.Members(), bound) == weight * CountAfter(log, bound)
  {
    hide CountAfter, Later;
  }

  lemma NoneCounted(weight: nat, n: nat)
    requires weight >= 1 && weight * n == 0
    ensures n == 0
  {
    SameFactor(weight, n, 0);
  }

  lemma OldestOfSome(shelf: Shelf, log: seq<nat>, window: nat, weight: nat, now: nat)
    requires Tracks(shelf, log, window, weight, 0, now) && AllLive(shelf.Members(), window, now) && weight >= 1
    requires shelf.Members() != map[]
    ensures Oldest(shelf.Members()) == OldestAfter(log, now - window)
  {
    hide CountAfter, Later, OldestAfter, Tracks;
    var members, bound := shelf.Members(), now - window;
    var s: int := Oldest(members).value;
    LaterOfAll(members, bound);
    LaterOfAll(members, s - 1);
    LaterOfOldest(members);
    TrackedCount(shelf, log, window, weight, now, bound);
    TrackedCount(shelf, log, window, weight, now, s);
    TrackedCount(shelf, log, window, weight, now, s - 1);
    SameFactor(weight, CountAfter(log, s), CountAfter(log, bound));
    SameFactor(weight, CountAfter(log, s - 1), CountAfter(log, bound));
    OldestLeavesFirst(log, bound, s);
    OldestLeavesFirst(log, bound, s - 1);
  }

  lemma SameFactor(weight: nat, a: nat, b: nat)
    requires weight >= 1
    ensures weight * a == weight * b <==> a == b
    ensures weight * a < weight * b <==> a < b
  {
    if a < b {
      assert weight * b == weight * a + weight * (b - a);
    } else if b < a {
      assert weight * a == weight * b + weight * (a - b);
    }
  }

  lemma LaterOfAll(members: map<string, nat>, bound: int)
    requires forall x :: x in members ==> members[x] > bound
    ensures Later(members, bound) == |members|
  {
    assert (set x | x in members && members[x] > bound) == members.Keys;
  }

  lemma LaterOfOldest(members: map<string, nat>)
    requires members != map[]
    ensures Later(members, Oldest(members).value) < |members|
  {
    var s := Oldest(members).value;
    var x :| x in members && members[x] == s;
    var later := set y | y in members && members[y] > s;
    assert later <= members.Keys - {x};
    assert members.Keys == (members.Keys - {x}) + {x};
    SubsetIsSmaller(later, members.Keys - {x});
  }

  lemma {:induction false} SubsetIsSmaller(a: set<string>, b: set<string>)
    requires a <= b
    ensures |a| <= |b|
  {
    if a != {} {
      var x :| x in a;
      SubsetIsSmaller(a - {x}, b - {x});
    }
  }
}
