/** The `concerts` table and its two operations: the upcoming-concerts
    query and the upsert of every parser's output under a single commit.
    The table is the sequence of its rows in insertion order; the clock is
    the parameter `now`. */
module ConcertRepository {
  import opened Wrappers
  import opened Seqs
  import opened Concert

  // =====================================================================
  // list_concerts
  // =====================================================================

  /** The WHERE clause: not before `now` and, when a day count is given,
      not after `now` plus that many days (both ends inclusive). */
  predicate InWindow(date: int, now: int, daysAhead: Option<int>) {
    now <= date && (daysAhead.Some? ==> date <= now + daysAhead.value * SecondsPerDay)
  }

  /** The rows the WHERE clause keeps, each as often as it occurs. */
  function Window(rows: seq<Row>, now: int, daysAhead: Option<int>): (r: seq<Row>)
    ensures forall x :: multiset(r)[x] == if InWindow(x.date, now, daysAhead) then multiset(rows)[x] else 0
  {
    if rows == [] then []
    else
      assert rows == [rows[0]] + rows[1..];
      (if InWindow(rows[0].date, now, daysAhead) then [rows[0]] else []) + Window(rows[1..], now, daysAhead)
  }

  predicate SortedByDate(rs: seq<Row>) {
    forall i, j :: 0 <= i < j < |rs| ==> rs[i].date <= rs[j].date
  }

  /** A row no later than every row of a sorted list may go in front. */
  lemma ConsSorted(a: Row, rs: seq<Row>)
    requires SortedByDate(rs)
    requires forall k :: 0 <= k < |rs| ==> a.date <= rs[k].date
    ensures SortedByDate([a] + rs)
  {
    var r := [a] + rs;
    forall i, j | 0 <= i < j < |r|
      ensures r[i].date <= r[j].date
    {
      assert r[j] == rs[j - 1];
      if i > 0 {
        assert r[i] == rs[i - 1];
      }
    }
  }

  function InsertByDate(x: Row, rs: seq<Row>): (r: seq<Row>)
    requires SortedByDate(rs)
    ensures SortedByDate(r)
    ensures multiset(r) == multiset(rs) + multiset{x}
  {
    if rs == [] then [x]
    else if x.date <= rs[0].date then
      ConsSorted(x, rs);
      [x] + rs
    else
      var rest := InsertByDate(x, rs[1..]);
      assert rs == [rs[0]] + rs[1..];
      assert forall k :: 0 <= k < |rest| ==> rs[0].date <= rest[k].date by {
        forall k | 0 <= k < |rest|
          ensures rs[0].date <= rest[k].date
        {
          var y := rest[k];
          assert y in multiset(rest);
          if y != x {
            assert y in rs[1..];
          }
        }
      }
      ConsSorted(rs[0], rest);
      [rs[0]] + rest
  }

  /** The ORDER BY clause: ascending dates, a permutation of its input. */
  function SortByDate(rs: seq<Row>): (r: seq<Row>)
    ensures SortedByDate(r)
    ensures multiset(r) == multiset(rs)
  {
    if rs == [] then []
    else
      assert rs == [rs[0]] + rs[1..];
      InsertByDate(rs[0], SortByDate(rs[1..]))
  }

  /** `list_concerts`: the rows dated within the window, each as often as
      the table holds it, in ascending date order. Rows with equal dates
      come in some order; the query does not fix one. */
  function ListConcerts(table: seq<Row>, now: int, daysAhead: Option<int>): (r: seq<Row>)
    ensures SortedByDate(r)
    ensures forall x :: multiset(r)[x] == if InWindow(x.date, now, daysAhead) then multiset(table)[x] else 0
  {
    SortByDate(Window(table, now, daysAhead))
  }

  /** Past concerts never appear, and a row appears exactly when the table
      holds it and it is in the window. */
  lemma ListConcertsMembers(table: seq<Row>, now: int, daysAhead: Option<int>, x: Row)
    ensures x in ListConcerts(table, now, daysAhead) <==> x in table && InWindow(x.date, now, daysAhead)
    ensures x in ListConcerts(table, now, daysAhead) ==> now <= x.date
  {
    var r := ListConcerts(table, now, daysAhead);
    assert x in r <==> multiset(r)[x] > 0;
    assert x in table <==> multiset(table)[x] > 0;
  }

  /** A longer horizon lists every concert a shorter one lists, and no
      horizon at all lists every concert any horizon lists. */
  lemma ListConcertsWiden(table: seq<Row>, now: int, d1: int, d2: int, x: Row)
    requires d1 <= d2
    ensures x in ListConcerts(table, now, Some(d1)) ==> x in ListConcerts(table, now, Some(d2))
    ensures x in ListConcerts(table, now, Some(d2)) ==> x in ListConcerts(table, now, None)
  {
    ListConcertsMembers(table, now, Some(d1), x);
    ListConcertsMembers(table, now, Some(d2), x);
    ListConcertsMembers(table, now, None, x);
  }

  // =====================================================================
  // upsert_concert: one event
  // =====================================================================

  /** `SELECT ... WHERE external_id = ? AND source = ?` then `.first()`:
      the position of the first row with the key, if any. */
  function Find(table: seq<Row>, k: Key): (r: Option<nat>)
    ensures r.Some? ==> r.value < |table| && RowKey(table[r.value]) == k
    ensures r.Some? ==> forall j :: 0 <= j < r.value ==> RowKey(table[j]) != k
    ensures r.None? ==> forall j :: 0 <= j < |table| ==> RowKey(table[j]) != k
  {
    if table == [] then None
    else if RowKey(table[0]) == k then Some(0)
    else
      match Find(table[1..], k)
      case None => None
      case Some(i) => Some(i + 1)
  }

  /** The largest id in the table, 0 for an empty table. */
  function MaxId(table: seq<Row>): (m: nat)
    ensures forall j :: 0 <= j < |table| ==> table[j].id <= m
  {
    if table == [] then 0
    else
      var rest := MaxId(table[1..]);
      assert forall j :: 1 <= j < |table| ==> table[j] == table[1..][j - 1];
      if table[0].id > rest then table[0].id else rest
  }

  /** The autoincrement key the database assigns to an inserted row: one more than the
      largest in use. */
  function NextId(table: seq<Row>): (id: nat)
    ensures forall j :: 0 <= j < |table| ==> table[j].id != id
  {
    MaxId(table) + 1
  }

  /** The row `session.add(Concert(...))` inserts: every column from the
      event, both timestamps `now`. */
  function NewRow(e: Event, id: nat, now: int): Row {
    Row(id, e.externalId, e.name, e.date, e.ticketsSold, e.ticketsTotal, e.source, Some(e.url), now, now)
  }

  /** The update of an existing row: the five assigned columns, plus
      `updated_at` from its `onupdate`. */
  function Refresh(row: Row, e: Event, now: int): Row {
    row.(name := e.name, date := e.date, ticketsSold := e.ticketsSold,
         ticketsTotal := e.ticketsTotal, url := Some(e.url), updatedAt := now)
  }

  /** The columns an upsert of `e` at `now` leaves in a row. */
  predicate Holds(row: Row, e: Event, now: int) {
    && row.name == e.name
    && row.date == e.date
    && row.ticketsSold == e.ticketsSold
    && row.ticketsTotal == e.ticketsTotal
    && row.url == Some(e.url)
    && row.updatedAt == now
  }

  /** The columns an upsert never changes in an existing row. */
  predicate SameIdentity(a: Row, b: Row) {
    a.id == b.id && a.externalId == b.externalId && a.source == b.source && a.createdAt == b.createdAt
  }

  /** One pass of the inner loop of `upsert_concert`: update the first row
      with the event's key, or append a new row. */
  function UpsertOne(table: seq<Row>, e: Event, now: int): seq<Row> {
    match Find(table, EventKey(e))
    case Some(i) => table[i := Refresh(table[i], e, now)]
    case None => table + [NewRow(e, NextId(table), now)]
  }

  /** After one upsert a row with the event's key holds the event's
      columns; an existing row keeps its id, key and creation time; a
      missing key gets a new row at the end with a fresh id and creation
      time `now`; every other row is untouched. */
  lemma UpsertOneSpec(table: seq<Row>, e: Event, now: int)
    ensures var r := UpsertOne(table, e, now);
            && |r| == (if Find(table, EventKey(e)).Some? then |table| else |table| + 1)
            && (forall j :: 0 <= j < |table| ==> SameIdentity(r[j], table[j]))
            && (forall j :: 0 <= j < |table| && Find(table, EventKey(e)) != Some(j) ==> r[j] == table[j])
            && Find(r, EventKey(e)).Some? && Holds(r[Find(r, EventKey(e)).value], e, now)
            && (Find(table, EventKey(e)).Some? ==> Find(r, EventKey(e)) == Find(table, EventKey(e)))
            && (Find(table, EventKey(e)).None? ==>
                  && Find(r, EventKey(e)) == Some(|table|)
                  && r[|table|].id == NextId(table)
                  && r[|table|].createdAt == now)
  {
    var r := UpsertOne(table, e, now);
    if Find(table, EventKey(e)).None? {
      assert forall j :: 0 <= j < |table| ==> r[j] == table[j];
      assert RowKey(r[|table|]) == EventKey(e);
    }
  }

  // =====================================================================
  // upsert_concert: a run of events
  // =====================================================================

  /** The events applied one after another. */
  function UpsertAll(table: seq<Row>, evs: seq<Event>, now: int): seq<Row> {
    if evs == [] then table
    else UpsertOne(UpsertAll(table, evs[..|evs| - 1], now), evs[|evs| - 1], now)
  }

  lemma UpsertAllSnoc(table: seq<Row>, evs: seq<Event>, e: Event, now: int)
    ensures UpsertAll(table, evs + [e], now) == UpsertOne(UpsertAll(table, evs, now), e, now)
  {
    assert (evs + [e])[..|evs|] == evs;
  }

  lemma {:induction false} UpsertAllAppend(table: seq<Row>, a: seq<Event>, b: seq<Event>, now: int)
    ensures UpsertAll(table, a + b, now) == UpsertAll(UpsertAll(table, a, now), b, now)
    decreases |b|
  {
    if b == [] {
      assert a + b == a;
    } else {
      var init := b[..|b| - 1];
      var e := b[|b| - 1];
      assert a + b == (a + init) + [e];
      assert b == init + [e];
      UpsertAllSnoc(table, a + init, e, now);
      UpsertAllSnoc(UpsertAll(table, a, now), init, e, now);
      UpsertAllAppend(table, a, init, now);
    }
  }

  /** The last event of `evs` with key `k`, if any. */
  function LastFor(evs: seq<Event>, k: Key): (r: Option<Event>)
    ensures r.Some? ==> EventKey(r.value) == k && r.value in evs
    ensures r.None? ==> forall m :: 0 <= m < |evs| ==> EventKey(evs[m]) != k
  {
    if evs == [] then None
    else if EventKey(evs[|evs| - 1]) == k then Some(evs[|evs| - 1])
    else LastFor(evs[..|evs| - 1], k)
  }

  /** No two rows share a (source, external id) pair. */
  predicate UniqueKeys(table: seq<Row>) {
    forall i, j :: 0 <= i < j < |table| ==> RowKey(table[i]) != RowKey(table[j])
  }

  /** No two rows share a primary key. */
  predicate UniqueIds(table: seq<Row>) {
    forall i, j :: 0 <= i < j < |table| ==> table[i].id != table[j].id
  }

  lemma UpsertOneKeepsUnique(table: seq<Row>, e: Event, now: int)
    requires UniqueKeys(table) && UniqueIds(table)
    ensures UniqueKeys(UpsertOne(table, e, now)) && UniqueIds(UpsertOne(table, e, now))
  {
    UpsertOneSpec(table, e, now);
  }

  /** Upserting keeps both the natural key and the primary key unique,
      although the schema enforces neither on the natural key. */
  lemma {:induction false} UpsertAllKeepsUnique(table: seq<Row>, evs: seq<Event>, now: int)
    requires UniqueKeys(table) && UniqueIds(table)
    ensures UniqueKeys(UpsertAll(table, evs, now)) && UniqueIds(UpsertAll(table, evs, now))
  {
    if evs != [] {
      UpsertAllKeepsUnique(table, evs[..|evs| - 1], now);
      UpsertOneKeepsUnique(UpsertAll(table, evs[..|evs| - 1], now), evs[|evs| - 1], now);
    }
  }

  /** Existing rows stay where they are and keep their identity; rows
      whose key no event carries are untouched. */
  lemma {:induction false} UpsertAllKeepsRows(table: seq<Row>, evs: seq<Event>, now: int)
    ensures var r := UpsertAll(table, evs, now);
            && |table| <= |r|
            && (forall j :: 0 <= j < |table| ==> SameIdentity(r[j], table[j]))
            && (forall j :: 0 <= j < |table| && LastFor(evs, RowKey(table[j])).None? ==> r[j] == table[j])
  {
    if evs != [] {
      var init := evs[..|evs| - 1];
      var e := evs[|evs| - 1];
      UpsertAllKeepsRows(table, init, now);
      var mid := UpsertAll(table, init, now);
      UpsertOneSpec(mid, e, now);
      forall j | 0 <= j < |table| && LastFor(evs, RowKey(table[j])).None?
        ensures UpsertOne(mid, e, now)[j] == table[j]
      {
        assert EventKey(e) != RowKey(table[j]);
        assert RowKey(mid[j]) == RowKey(table[j]);
      }
    }
  }

  /** A lookup that succeeds gives the same answer in any table that keeps
      the same keys at the same positions. */
  lemma FindSameKeys(a: seq<Row>, b: seq<Row>, k: Key)
    requires |a| <= |b| && Find(a, k).Some?
    requires forall j :: 0 <= j < |a| ==> RowKey(b[j]) == RowKey(a[j])
    ensures Find(b, k) == Find(a, k)
  {
    var i := Find(a, k).value;
    assert RowKey(b[i]) == k;
  }

  lemma UpsertOneKeepsKeys(table: seq<Row>, e: Event, now: int)
    ensures var r := UpsertOne(table, e, now);
            |table| <= |r| && forall j :: 0 <= j < |table| ==> RowKey(r[j]) == RowKey(table[j])
  {
    var r := UpsertOne(table, e, now);
    UpsertOneSpec(table, e, now);
    forall j | 0 <= j < |table| ensures RowKey(r[j]) == RowKey(table[j]) {
      assert SameIdentity(r[j], table[j]);
    }
  }

  /** Last write wins: for every key some event carries, the table has a
      row with that key holding the columns of the last such event. */
  lemma {:induction false} UpsertAllLastWins(table: seq<Row>, evs: seq<Event>, now: int, k: Key)
    requires LastFor(evs, k).Some?
    ensures var r := UpsertAll(table, evs, now);
            Find(r, k).Some? && Holds(r[Find(r, k).value], LastFor(evs, k).value, now)
  {
    var init := evs[..|evs| - 1];
    var e := evs[|evs| - 1];
    var mid := UpsertAll(table, init, now);
    var r := UpsertOne(mid, e, now);
    assert r == UpsertAll(table, evs, now);
    UpsertOneSpec(mid, e, now);
    if EventKey(e) != k {
      assert LastFor(evs, k) == LastFor(init, k);
      UpsertAllLastWins(table, init, now, k);
      var i := Find(mid, k).value;
      UpsertOneKeepsKeys(mid, e, now);
      FindSameKeys(mid, r, k);
      assert Find(mid, EventKey(e)) != Some(i);
      assert r[i] == mid[i];
    }
  }

  /** When every event's key is already in the table, no row is added. */
  lemma {:induction false} UpsertAllNoGrowth(table: seq<Row>, evs: seq<Event>, now: int)
    requires forall m :: 0 <= m < |evs| ==> Find(table, EventKey(evs[m])).Some?
    ensures |UpsertAll(table, evs, now)| == |table|
  {
    if evs != [] {
      var init := evs[..|evs| - 1];
      var e := evs[|evs| - 1];
      assert forall m :: 0 <= m < |init| ==> init[m] == evs[m];
      UpsertAllNoGrowth(table, init, now);
      UpsertAllKeepsRows(table, init, now);
      var mid := UpsertAll(table, init, now);
      UpsertOneSpec(mid, e, now);
      var i := Find(table, EventKey(e)).value;
      assert RowKey(mid[i]) == EventKey(e);
    }
  }

  /** In a table with unique keys, the row with key `k` is at `j`. */
  lemma FindUnique(table: seq<Row>, j: nat)
    requires UniqueKeys(table) && j < |table|
    ensures Find(table, RowKey(table[j])) == Some(j)
  {
  }

  /** Re-running the same events at the same time changes nothing:
      `upsert_concert` is idempotent on a table with unique keys. */
  lemma UpsertIdempotent(table: seq<Row>, evs: seq<Event>, now: int)
    requires UniqueKeys(table) && UniqueIds(table)
    ensures UpsertAll(UpsertAll(table, evs, now), evs, now) == UpsertAll(table, evs, now)
  {
    var t1 := UpsertAll(table, evs, now);
    var t2 := UpsertAll(t1, evs, now);
    UpsertAllKeepsUnique(table, evs, now);
    forall m | 0 <= m < |evs| ensures Find(t1, EventKey(evs[m])).Some? {
      assert LastFor(evs, EventKey(evs[m])).Some?;
      UpsertAllLastWins(table, evs, now, EventKey(evs[m]));
    }
    UpsertAllNoGrowth(t1, evs, now);
    UpsertAllKeepsRows(t1, evs, now);
    forall j | 0 <= j < |t1| ensures t2[j] == t1[j] {
      var k := RowKey(t1[j]);
      if LastFor(evs, k).Some? {
        FindUnique(t1, j);
        UpsertAllLastWins(table, evs, now, k);
        UpsertAllLastWins(t1, evs, now, k);
        assert RowKey(t2[j]) == k;
        FindUnique(t2, j) by {
          UpsertAllKeepsUnique(t1, evs, now);
        }
      }
    }
  }

  // =====================================================================
  // upsert_concert: the parsers and the single commit
  // =====================================================================

  /** The parsers run in order; the first that raises ends the run,
      otherwise their outputs are concatenated. */
  function Gather(batches: seq<Result<seq<Event>, string>>): Result<seq<Event>, string> {
    if batches == [] then Success([])
    else
      match Gather(batches[..|batches| - 1])
      case Failure(m) => Failure(m)
      case Success(evs) =>
        match batches[|batches| - 1]
        case Failure(m) => Failure(m)
        case Success(more) => Success(evs + more)
  }

  /** The outputs of the parsers, an empty list for one that raised. */
  function Outputs(batches: seq<Result<seq<Event>, string>>): seq<seq<Event>> {
    seq(|batches|, i requires 0 <= i < |batches| => if batches[i].Success? then batches[i].value else [])
  }

  /** `Gather` fails exactly when some parser raised, with the earliest
      error; otherwise it is all outputs in parser order. */
  lemma GatherSpec(batches: seq<Result<seq<Event>, string>>)
    ensures Gather(batches).Success? <==> forall i :: 0 <= i < |batches| ==> batches[i].Success?
    ensures Gather(batches).Success? ==> Gather(batches).value == Concat(Outputs(batches))
    ensures Gather(batches).Failure? ==>
              exists i :: 0 <= i < |batches| && batches[i] == Failure(Gather(batches).error)
                          && forall j :: 0 <= j < i ==> batches[j].Success?
  {
    GatherSucceeds(batches);
    GatherFails(batches);
  }

  lemma {:induction false} GatherSucceeds(batches: seq<Result<seq<Event>, string>>)
    ensures Gather(batches).Success? <==> forall i :: 0 <= i < |batches| ==> batches[i].Success?
    ensures Gather(batches).Success? ==> Gather(batches).value == Concat(Outputs(batches))
  {
    if batches != [] {
      var n := |batches| - 1;
      var init := batches[..n];
      GatherSucceeds(init);
      assert forall j :: 0 <= j < n ==> batches[j] == init[j];
      if Gather(init).Success? && batches[n].Success? {
        assert Gather(batches) == Success(Gather(init).value + batches[n].value);
        OutputsSnoc(batches);
        ConcatSnoc(Outputs(init), batches[n].value);
      } else {
        assert Gather(batches).Failure?;
      }
    }
  }

  lemma OutputsSnoc(batches: seq<Result<seq<Event>, string>>)
    requires batches != [] && batches[|batches| - 1].Success?
    ensures Outputs(batches) == Outputs(batches[..|batches| - 1]) + [batches[|batches| - 1].value]
  {
    var n := |batches| - 1;
    var o := Outputs(batches);
    SliceSnoc(o, n);
    assert o[..n] == Outputs(batches[..n]);
    assert o[..n + 1] == o;
  }

  lemma {:induction false} GatherFails(batches: seq<Result<seq<Event>, string>>)
    ensures Gather(batches).Failure? ==>
              exists i :: 0 <= i < |batches| && batches[i] == Failure(Gather(batches).error)
                          && forall j :: 0 <= j < i ==> batches[j].Success?
  {
    if batches != [] {
      var n := |batches| - 1;
      var init := batches[..n];
      GatherFails(init);
      if Gather(init).Failure? {
        var i :| 0 <= i < |init| && init[i] == Failure(Gather(init).error)
                 && forall j :: 0 <= j < i ==> init[j].Success?;
        assert batches[i] == init[i];
        assert forall j :: 0 <= j < i ==> batches[j] == init[j];
      } else if batches[n].Failure? {
        GatherSucceeds(init);
        assert forall j :: 0 <= j < n ==> batches[j] == init[j];
        assert batches[n] == Failure(Gather(batches).error);
      }
    }
  }

  lemma GatherSnoc(batches: seq<Result<seq<Event>, string>>, p: nat)
    requires p < |batches|
    ensures Gather(batches[..p + 1]) ==
              match Gather(batches[..p])
              case Failure(m) => Failure(m)
              case Success(evs) =>
                match batches[p]
                case Failure(m) => Failure(m)
                case Success(more) => Success(evs + more)
  {
    assert batches[..p + 1][..p] == batches[..p];
  }

  lemma {:induction false} GatherStopsAtFailure(batches: seq<Result<seq<Event>, string>>, p: nat)
    requires p < |batches| && Gather(batches[..p]).Success? && batches[p].Failure?
    ensures Gather(batches) == Failure(batches[p].error)
    decreases |batches|
  {
    var init := batches[..|batches| - 1];
    if |batches| == p + 1 {
      assert init == batches[..p];
    } else {
      assert init[..p] == batches[..p];
      GatherStopsAtFailure(init, p);
    }
  }

  /** The inner loop of `upsert_concert` over one parser's events: look
      the key up, then update the row found or append a new one. */
  method ApplyEvents(table: seq<Row>, evs: seq<Event>, now: int) returns (r: seq<Row>)
    ensures r == UpsertAll(table, evs, now)
  {
    r := table;
    var i := 0;
    while i < |evs|
      invariant 0 <= i <= |evs|
      invariant r == UpsertAll(table, evs[..i], now)
    {
      var e := evs[i];
      ghost var prev := r;
      match Find(r, EventKey(e)) {
        case Some(j) =>
          r := r[j := Refresh(r[j], e, now)];
        case None =>
          r := r + [NewRow(e, NextId(r), now)];
      }
      assert r == UpsertOne(prev, e, now);
      assert evs[..i + 1] == evs[..i] + [e];
      UpsertAllSnoc(table, evs[..i], e, now);
      i := i + 1;
    }
    assert evs[..i] == evs;
  }

  /** The `concerts` table as the session sees it. */
  class ConcertStore {
    var rows: seq<Row>

    constructor ()
      ensures rows == []
    {
      rows := [];
    }

    /** `upsert_concert`: every parser's events are applied in order to a
        working copy, which becomes the table in one commit. A parser that
        raises ends the call before the commit, so the table is unchanged. */
    method UpsertConcert(batches: seq<Result<seq<Event>, string>>, now: int) returns (error: Option<string>)
      modifies this
      ensures Gather(batches).Failure? ==> error == Some(Gather(batches).error) && rows == old(rows)
      ensures Gather(batches).Success? ==> error == None && rows == UpsertAll(old(rows), Gather(batches).value, now)
      ensures UniqueKeys(old(rows)) && UniqueIds(old(rows)) ==> UniqueKeys(rows) && UniqueIds(rows)
    {
      ghost var table := rows;
      var pending := rows;
      ghost var done: seq<Event> := [];
      var p := 0;
      while p < |batches|
        invariant 0 <= p <= |batches|
        invariant Gather(batches[..p]) == Success(done)
        invariant pending == UpsertAll(rows, done, now)
        invariant rows == old(rows)
      {
        GatherSnoc(batches, p);
        match batches[p] {
          case Failure(m) =>
            GatherStopsAtFailure(batches, p);
            return Some(m);
          case Success(evs) =>
            pending := ApplyEvents(pending, evs, now);
            UpsertAllAppend(rows, done, evs, now);
            done := done + evs;
        }
        p := p + 1;
      }
      assert batches[..p] == batches;
      rows := pending;
      error := None;
      if UniqueKeys(table) && UniqueIds(table) {
        UpsertConcertKeepsUnique(table, batches, now);
      }
    }
  }

  /** A successful run leaves keys and ids unique if they were. */
  lemma UpsertConcertKeepsUnique(table: seq<Row>, batches: seq<Result<seq<Event>, string>>, now: int)
    requires UniqueKeys(table) && UniqueIds(table)
    requires Gather(batches).Success?
    ensures UniqueKeys(UpsertAll(table, Gather(batches).value, now))
    ensures UniqueIds(UpsertAll(table, Gather(batches).value, now))
  {
    UpsertAllKeepsUnique(table, Gather(batches).value, now);
  }
}
