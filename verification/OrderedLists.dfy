/** Whole runs of a list kept by order keys: every edit looks only at the keys
    of the two neighbours, and the keys always sort back into the list. */
module OrderedLists {
  import opened Results
  import opened Base62
  import opened OrderKeys
  import opened OrderKeyNumbers
  import opened OrderKeyBetween

  /** A stored row: who it is, and the key that places it. */
  datatype Row = Row(id: int, key: string)

  datatype Edit =
    | Insert(id: int, at: nat)
    | Remove(at: nat)
    | Move(from: nat, to: nat)

  // ------------------------------------------------ the list as it is meant

  function Without<T>(s: seq<T>, at: nat): seq<T>
    requires at < |s|
  {
    s[..at] + s[at + 1..]
  }

  function With<T>(s: seq<T>, at: nat, x: T): seq<T>
    requires at <= |s|
  {
    s[..at] + [x] + s[at..]
  }

  /** Plain list editing; an edit that names no position changes nothing. */
  function EditList(ids: seq<int>, e: Edit): seq<int> {
    match e
    case Insert(id, at) => if at <= |ids| then With(ids, at, id) else ids
    case Remove(at) => if at < |ids| then Without(ids, at) else ids
    case Move(from, to) => if from < |ids| && to < |ids| then With(Without(ids, from), to, ids[from]) else ids
  }

  function EditedList(edits: seq<Edit>): seq<int> {
    if edits == [] then [] else EditList(EditedList(edits[..|edits| - 1]), edits[|edits| - 1])
  }

  // ---------------------------------------------- the list as it is stored

  /** Valid keys in strictly ascending order, none longer than the number of
      edits made so far plus one. */
  predicate Ordered(rows: seq<Row>, edits: nat) {
    && (forall i :: 0 <= i < |rows| ==> Valid(rows[i].key) && |rows[i].key| <= edits + 1)
    && (forall i, j :: 0 <= i < j < |rows| ==> Below(rows[i].key, rows[j].key))
  }

  function Ids(rows: seq<Row>): (ids: seq<int>)
    ensures |ids| == |rows|
  {
    seq(|rows|, i requires 0 <= i < |rows| => rows[i].id)
  }

  /** The key at a position, or no bound beyond either end. */
  function KeyAt(rows: seq<Row>, at: int): string {
    if 0 <= at < |rows| then rows[at].key else ""
  }

  /** One row gets a key between its two neighbours; no other row is touched. */
  function Place(rows: seq<Row>, at: nat, id: int): Result<seq<Row>, KeyError>
    requires at <= |rows|
  {
    var key :- Between(KeyAt(rows, at - 1), KeyAt(rows, at));
    Success(With(rows, at, Row(id, key)))
  }

  function EditRows(rows: seq<Row>, e: Edit): Result<seq<Row>, KeyError> {
    match e
    case Insert(id, at) => if at <= |rows| then Place(rows, at, id) else Success(rows)
    case Remove(at) => Success(if at < |rows| then Without(rows, at) else rows)
    case Move(from, to) =>
      if from < |rows| && to < |rows| then Place(Without(rows, from), to, rows[from].id) else Success(rows)
  }

  function EditedRows(edits: seq<Edit>): Result<seq<Row>, KeyError> {
    if edits == [] then Success([])
    else
      var rows :- EditedRows(edits[..|edits| - 1]);
      EditRows(rows, edits[|edits| - 1])
  }

  // ----------------------------------------------------------- one edit

  /** The new key exists, and sorts after everything before it and before
      everything after it. */
  lemma PlacedKey(rows: seq<Row>, at: nat, edits: nat)
    requires Ordered(rows, edits) && at <= |rows|
    ensures var r := Between(KeyAt(rows, at - 1), KeyAt(rows, at));
            && r.Success? && Valid(r.value) && |r.value| <= edits + 2
            && (forall i :: 0 <= i < at ==> Below(rows[i].key, r.value))
            && (forall i :: at <= i < |rows| ==> Below(r.value, rows[i].key))
  {
    var prev, next := KeyAt(rows, at - 1), KeyAt(rows, at);
    BetweenIsTotalAndStrict(prev, next);
    var key := Between(prev, next).value;
    forall i | 0 <= i < at ensures Below(rows[i].key, key) {
      if i < at - 1 {
        BelowIsTransitive(rows[i].key, prev, key);
      }
    }
    forall i | at <= i < |rows| ensures Below(key, rows[i].key) {
      if at < i {
        BelowIsTransitive(key, next, rows[i].key);
      }
    }
  }

  lemma PlaceKeepsOrder(rows: seq<Row>, at: nat, id: int, edits: nat)
    requires Ordered(rows, edits) && at <= |rows|
    ensures var r := Place(rows, at, id);
            && r.Success? && Ordered(r.value, edits + 1)
            && Ids(r.value) == With(Ids(rows), at, id)
            && Without(r.value, at) == rows
  {
    hide Valid, Below, Between, Ordered;
    PlacedKey(rows, at, edits);
    var row := Row(id, Between(KeyAt(rows, at - 1), KeyAt(rows, at)).value);
    WithKeepsOrder(rows, at, row, edits);
    IdsOfWith(rows, at, row);
  }

  lemma IdsOfWith(rows: seq<Row>, at: nat, row: Row)
    requires at <= |rows|
    ensures Ids(With(rows, at, row)) == With(Ids(rows), at, row.id)
  {
    var ids, with := Ids(With(rows, at, row)), With(Ids(rows), at, row.id);
    assert |ids| == |with|;
    forall i | 0 <= i < |ids| ensures ids[i] == with[i] {
      assert i < at ==> With(rows, at, row)[i] == rows[i];
      assert i > at ==> With(rows, at, row)[i] == rows[i - 1];
    }
  }

  lemma IdsOfWithout(rows: seq<Row>, at: nat)
    requires at < |rows|
    ensures Ids(Without(rows, at)) == Without(Ids(rows), at)
  {
    var ids, without := Ids(Without(rows, at)), Without(Ids(rows), at);
    assert |ids| == |without|;
    forall i | 0 <= i < |ids| ensures ids[i] == without[i] {
      assert Without(rows, at)[i] == rows[if i < at then i else i + 1];
    }
  }

  lemma WithoutKeepsOrder(rows: seq<Row>, at: nat, edits: nat)
    requires Ordered(rows, edits) && at < |rows|
    ensures Ordered(Without(rows, at), edits)
  {
    hide Valid, Below;
    var left := Without(rows, at);
    assert forall i :: 0 <= i < |left| ==> left[i] == rows[if i < at then i else i + 1];
  }

  lemma MoreEditsKeepOrder(rows: seq<Row>, edits: nat)
    requires Ordered(rows, edits)
    ensures Ordered(rows, edits + 1)
  {
    hide Valid, Below;
  }

  lemma WithKeepsOrder(rows: seq<Row>, at: nat, row: Row, edits: nat)
    requires Ordered(rows, edits) && at <= |rows| && Valid(row.key) && |row.key| <= edits + 2
    requires forall i :: 0 <= i < at ==> Below(rows[i].key, row.key)
    requires forall i :: at <= i < |rows| ==> Below(row.key, rows[i].key)
    ensures Ordered(With(rows, at, row), edits + 1)
    ensures Without(With(rows, at, row), at) == rows
  {
    hide Valid, Below, With, Without;
    WithIsEitherSide(rows, at, row);
  }

  lemma WithIsEitherSide(rows: seq<Row>, at: nat, row: Row)
    requires at <= |rows|
    ensures var placed := With(rows, at, row);
            && |placed| == |rows| + 1 && placed[at] == row && Without(placed, at) == rows
            && (forall i :: 0 <= i < |placed| && i != at ==> placed[i] == rows[if i < at then i else i - 1])
  {
  }

  lemma EditKeepsOrder(rows: seq<Row>, e: Edit, edits: nat)
    requires Ordered(rows, edits)
    ensures var r := EditRows(rows, e);
            r.Success? && Ordered(r.value, edits + 1) && Ids(r.value) == EditList(Ids(rows), e)
  {
    hide Ordered, Place, With, Without, Ids;
    MoreEditsKeepOrder(rows, edits);
    match e
    case Insert(id, at) =>
      if at <= |rows| {
        PlaceKeepsOrder(rows, at, id, edits);
      }
    case Remove(at) =>
      if at < |rows| {
        IdsOfWithout(rows, at);
        WithoutKeepsOrder(rows, at, edits);
        MoreEditsKeepOrder(Without(rows, at), edits);
      }
    case Move(from, to) =>
      if from < |rows| && to < |rows| {
        IdsOfWithout(rows, from);
        WithoutKeepsOrder(rows, from, edits);
        WithoutIsShorter(rows, from);
        PlaceKeepsOrder(Without(rows, from), to, rows[from].id, edits);
      }
  }

  lemma WithoutIsShorter(rows: seq<Row>, at: nat)
    requires at < |rows|
    ensures |Without(rows, at)| == |rows| - 1 && Ids(rows)[at] == rows[at].id
  {
  }

  // ----------------------------------------------------------- every run

  /** After any run of edits the keys are valid, distinct, ascending and at most
      one byte longer than the run, and they spell the plainly edited list. */
  lemma {:induction false} RunsKeepOrder(edits: seq<Edit>)
    ensures var r := EditedRows(edits);
            r.Success? && Ordered(r.value, |edits|) && Ids(r.value) == EditedList(edits)
  {
    if edits != [] {
      var before := edits[..|edits| - 1];
      hide Valid, Below, EditRows, EditList, Ids;
      RunsKeepOrder(before);
      EditKeepsOrder(EditedRows(before).value, edits[|edits| - 1], |before|);
    }
  }

  predicate SortedByKey(rows: seq<Row>) {
    forall i, j :: 0 <= i < j < |rows| ==> !Below(rows[j].key, rows[i].key)
  }

  /** However the stored rows come back, sorting them by key restores the list
      that plain editing would have built. */
  lemma SortingRestoresTheList(edits: seq<Edit>, read: seq<Row>)
    requires EditedRows(edits).Success? && multiset(read) == multiset(EditedRows(edits).value)
    requires SortedByKey(read)
    ensures Ids(read) == EditedList(edits)
  {
    RunsKeepOrder(edits);
    SortedIsUnique(EditedRows(edits).value, read, |edits|);
  }

  lemma {:induction false} SortedIsUnique(rows: seq<Row>, read: seq<Row>, edits: nat)
    requires Ordered(rows, edits) && SortedByKey(read) && multiset(rows) == multiset(read)
    ensures rows == read
  {
    assert |multiset(rows)| == |rows| && |multiset(read)| == |read|;
    if rows != [] {
      hide Ordered, SortedByKey;
      FirstIsFirst(rows, read, edits);
      SameTails(rows, read);
      TailsKeepOrder(rows, read, edits);
      SortedIsUnique(rows[1..], read[1..], edits);
      assert rows == [rows[0]] + rows[1..] && read == [read[0]] + read[1..];
    }
  }

  lemma SameTails(rows: seq<Row>, read: seq<Row>)
    requires rows != [] && read != [] && rows[0] == read[0] && multiset(rows) == multiset(read)
    ensures multiset(rows[1..]) == multiset(read[1..])
  {
    assert rows == [rows[0]] + rows[1..] && read == [read[0]] + read[1..];
    assert multiset(rows[1..]) == multiset(rows) - multiset{rows[0]};
    assert multiset(read[1..]) == multiset(read) - multiset{read[0]};
  }

  lemma FirstIsFirst(rows: seq<Row>, read: seq<Row>, edits: nat)
    requires Ordered(rows, edits) && SortedByKey(read) && multiset(rows) == multiset(read)
    requires rows != [] && read != []
    ensures rows[0] == read[0]
  {
    hide Valid, Below;
    assert read[0] in multiset(rows) && rows[0] in multiset(read);
    var k :| 0 <= k < |rows| && rows[k] == read[0];
    var m :| 0 <= m < |read| && read[m] == rows[0];
  }

  lemma TailsKeepOrder(rows: seq<Row>, read: seq<Row>, edits: nat)
    requires Ordered(rows, edits) && SortedByKey(read) && rows != [] && read != []
    ensures Ordered(rows[1..], edits) && SortedByKey(read[1..])
  {
  }

  // ------------------------------------------------------------ appending

  /** The key the n-th append to an empty list gets, counting from zero. */
  function Appended(n: nat): Result<string, KeyError> {
    if n == 0 then Between("", "")
    else
      var last :- Appended(n - 1);
      Between(last, "")
  }

  /** The fraction-free key of a value, short enough for m digits. */
  predicate Counts(key: string, n: nat, m: nat) {
    IsInteger(key) && IntegerValue(key) == n && |key| <= m + 1
  }

  /** Appends count upwards without fractions: 62 + 62^2 + ... + 62^m of them
      fit in m + 1 bytes, up to the widest integer. */
  lemma {:induction false} AppendingIsLogarithmic(n: nat, m: nat)
    requires 1 <= m <= 26 && n < Offset(m)
    ensures Appended(n).Success? && Counts(Appended(n).value, n, m)
  {
    hide Between, Counts, Offset;
    if n == 0 {
      FirstCounts(m);
    } else {
      AppendingIsLogarithmic(n - 1, m);
      NextAppend(Appended(n - 1).value, n - 1, m);
    }
  }

  lemma FirstCounts(m: nat)
    requires 1 <= m
    ensures Between("", "").Success? && Counts(Between("", "").value, 0, m)
  {
    assert Between("", "") == Success(FIRST_KEY);
    hide Between;
    ValueOfParts('a', "0");
    assert FIRST_KEY == ['a'] + "0";
  }

  lemma NextAppend(last: string, n: nat, m: nat)
    requires Counts(last, n, m) && m <= 26 && n + 1 < Offset(m)
    ensures Between(last, "").Success? && Counts(Between(last, "").value, n + 1, m)
  {
    BetweenStepsUp(last);
    RoomToIncrement(last, m);
    IncrementIsSuccessor(last);
    WidthOfCount(Increment(last).value, m);
  }

  lemma BetweenStepsUp(last: string)
    requires IsInteger(last) && IntegerValue(last) >= 0
    ensures Between(last, "") == Success(After(last, ""))
  {
    assert last + "" == last;
    if last[0] <= 'Z' {
      NumBelow(last);
    }
    assert SMALLEST_INTEGER[0] == 'A';
    SplitOfParts(last, "");
  }

  lemma NumBelow(i: string)
    requires IsInteger(i) && i[0] <= 'Z'
    ensures IntegerValue(i) < 0
  {
  }

  lemma RoomToIncrement(i: string, m: nat)
    requires IsInteger(i) && m <= 26 && IntegerValue(i) + 1 < Offset(m)
    ensures Increment(i).Success?
  {
    if Increment(i).Failure? {
      FailsAtTop(i);
      hide Increment, Offset, IntegerValue;
      OffsetIsMonotone(m, |i| - 1);
      assert false;
    }
  }

  lemma FailsAtTop(i: string)
    requires IsInteger(i) && Increment(i).Failure?
    ensures |i| == 27 && IntegerValue(i) == Offset(|i| - 1) - 1
  {
    assert i[0] == 'z' && AddOne(i[1..]).1;
    hide Increment, AddOne, Num;
    AddOneAddsOne(i[1..]);
    TopIsHighest(i);
  }

  lemma WidthOfCount(i: string, m: nat)
    requires IsInteger(i) && 0 <= IntegerValue(i) < Offset(m)
    ensures |i| <= m + 1
  {
    if i[0] <= 'Z' {
      NumBelow(i);
    } else if |i| - 2 >= m {
      OffsetIsMonotone(m, |i| - 2);
    }
  }
}
