/** The three provider parsers (Yandex Afisha CRM, GoStandUp, Timepad).
    Each turns a provider payload into parser output records (`Event`).
    The HTTP calls are inputs here: a response is `Success(payload)`, or
    `Failure(message)` when the request, the status check or the JSON
    decoding raised. The current time is the parameter `now`. */
module Parsers {
  import opened Wrappers
  import opened Strings
  import opened Concert

  // =====================================================================
  // _flatten
  // =====================================================================

  /** An element of a provider list: a plain item, or a nested list whose
      elements are spliced into the outer list. */
  datatype Nested<T> = Item(value: T) | Sublist(items: seq<T>)

  /** What one element contributes to the flattened list. */
  function Parts<T>(x: Nested<T>): seq<T> {
    match x
    case Item(v) => [v]
    case Sublist(vs) => vs
  }

  /** The sum of the part lengths. */
  function Size<T>(xs: seq<Nested<T>>): nat {
    if xs == [] then 0 else |Parts(xs[0])| + Size(xs[1..])
  }

  /** `_flatten`: splices nested lists one level deep and keeps every other
      element; the result is as long as all the parts together. */
  function Flatten<T>(xs: seq<Nested<T>>): (r: seq<T>)
    ensures |r| == Size(xs)
  {
    if xs == [] then [] else Parts(xs[0]) + Flatten(xs[1..])
  }

  lemma {:induction false} FlattenAppend<T>(a: seq<Nested<T>>, b: seq<Nested<T>>)
    ensures Flatten(a + b) == Flatten(a) + Flatten(b)
  {
    if a == [] {
      assert a + b == b;
    } else {
      assert (a + b)[0] == a[0] && (a + b)[1..] == a[1..] + b;
      FlattenAppend(a[1..], b);
    }
  }

  /** Order is kept: the `k`-th part of element `i` lands right after the
      parts of all earlier elements. */
  lemma FlattenAt<T>(xs: seq<Nested<T>>, i: nat, k: nat)
    requires i < |xs| && k < |Parts(xs[i])|
    ensures Size(xs[..i]) + k < |Flatten(xs)|
    ensures Flatten(xs)[Size(xs[..i]) + k] == Parts(xs[i])[k]
  {
    assert xs == xs[..i] + xs[i..];
    FlattenAppend(xs[..i], xs[i..]);
    assert xs[i..][0] == xs[i] && xs[i..][1..] == xs[i + 1..];
  }

  /** A list with no nested lists flattens to its own items. */
  lemma {:induction false} FlattenItems<T>(xs: seq<Nested<T>>)
    requires forall j :: 0 <= j < |xs| ==> xs[j].Item?
    ensures Flatten(xs) == seq(|xs|, j requires 0 <= j < |xs| => xs[j].value)
  {
    if xs != [] {
      FlattenItems(xs[1..]);
    }
  }

  // =====================================================================
  // _parse_dt
  // =====================================================================

  /** A date string as a provider sends it: empty or absent, a wall-clock
      timestamp in seconds with an optional UTC offset in seconds, or text
      the date parser rejects. */
  datatype DateText = Blank | Stamp(wall: int, offset: Option<int>) | Unparseable

  /** `datetime.min` (0001-01-01 00:00:00) in seconds from 1970-01-01. */
  const MinDate: int := -62135596800

  /** `_parse_dt`: an empty string gives `datetime.min`; a timestamp with an
      offset is moved to UTC and the offset dropped; a naive timestamp is
      taken as it is; text the parser rejects raises. */
  function ParseDt(raw: DateText): (r: Result<int, string>)
    ensures r.Failure? <==> raw.Unparseable?
    ensures raw.Blank? ==> r == Success(MinDate)
    ensures raw.Stamp? ==> r == Success(raw.wall - raw.offset.GetOr(0))
  {
    match raw
    case Blank => Success(MinDate)
    case Stamp(wall, offset) => Success(wall - offset.GetOr(0))
    case Unparseable => Failure("Unknown string format")
  }

  /** Two spellings of the same instant in different offsets parse to the
      same UTC value. */
  lemma ParseDtSameInstant(w1: int, o1: int, w2: int, o2: int)
    requires w1 - o1 == w2 - o2
    ensures ParseDt(Stamp(w1, Some(o1))) == ParseDt(Stamp(w2, Some(o2)))
  {
  }

  /** `_parse_dt` returns naive UTC: only unparseable text fails, a parsed
      value written back as a naive timestamp parses to itself, and moving
      the wall clock and the offset by the same amount changes nothing. */
  lemma ParseDtNormalises(raw: DateText, w: int, o: int)
    ensures ParseDt(raw).Failure? <==> raw.Unparseable?
    ensures ParseDt(raw).Success? ==> ParseDt(Stamp(ParseDt(raw).value, None)) == ParseDt(raw)
    ensures ParseDt(Stamp(w + o, Some(o))) == ParseDt(Stamp(w, None))
  {
  }

  // =====================================================================
  // Python truthiness of optional payload fields
  // =====================================================================

  /** A number field is truthy when present and not 0. */
  predicate Truthy(o: Option<int>) {
    o.Some? && o.value != 0
  }

  /** A text field is truthy when present and not empty. */
  predicate Filled(o: Option<string>) {
    o.Some? && o.value != ""
  }

  /** `a or b or 0` over two optional numbers. */
  function OrInt(a: Option<int>, b: Option<int>): int {
    if Truthy(a) then a.value else if Truthy(b) then b.value else 0
  }

  /** `a or b or default` over two optional strings. */
  function OrText(a: Option<string>, b: Option<string>, default: string): string {
    if Filled(a) then a.value else if Filled(b) then b.value else default
  }

  // =====================================================================
  // The per-event loop shared by the three parsers
  // =====================================================================

  /** What one loop iteration does with one raw event: `continue`, append
      an output record, or raise. */
  datatype Step = Skip | Emit(event: Event) | Abort(reason: string)

  /** The outcome of a whole loop: the first raised error, or the appended
      records in loop order. */
  function Collect(steps: seq<Step>): Result<seq<Event>, string> {
    if steps == [] then Success([])
    else
      match Collect(steps[..|steps| - 1])
      case Failure(m) => Failure(m)
      case Success(items) =>
        match steps[|steps| - 1]
        case Skip => Success(items)
        case Emit(e) => Success(items + [e])
        case Abort(m) => Failure(m)
  }

  /** The records of the emitting steps, in order. */
  function Emitted(steps: seq<Step>): seq<Event> {
    if steps == [] then []
    else
      var last := steps[|steps| - 1];
      Emitted(steps[..|steps| - 1]) + (if last.Emit? then [last.event] else [])
  }

  /** The error of the earliest aborting step, if any. */
  function FirstAbort(steps: seq<Step>): Option<string> {
    if steps == [] then None
    else if steps[0].Abort? then Some(steps[0].reason)
    else FirstAbort(steps[1..])
  }

  /** The positions of the emitting steps, in order. */
  function EmitIndices(steps: seq<Step>): (idx: seq<nat>)
    ensures |idx| == |Emitted(steps)|
    ensures forall k :: 0 <= k < |idx| ==> idx[k] < |steps|
  {
    if steps == [] then []
    else
      EmitIndices(steps[..|steps| - 1]) + (if steps[|steps| - 1].Emit? then [|steps| - 1] else [])
  }

  /** The `k`-th emitted record comes from the `k`-th entry of `EmitIndices`. */
  lemma {:induction false} EmitIndicesHit(steps: seq<Step>)
    ensures var idx := EmitIndices(steps);
            forall k :: 0 <= k < |idx| ==> steps[idx[k]] == Emit(Emitted(steps)[k])
  {
    if steps != [] {
      var n := |steps| - 1;
      var init := steps[..n];
      EmitIndicesHit(init);
      var idx := EmitIndices(steps);
      var rest := EmitIndices(init);
      assert idx == rest + (if steps[n].Emit? then [n] else []);
      assert Emitted(steps) == Emitted(init) + (if steps[n].Emit? then [steps[n].event] else []);
      forall k | 0 <= k < |rest|
        ensures steps[idx[k]] == Emit(Emitted(steps)[k])
      {
        assert idx[k] == rest[k];
        assert steps[rest[k]] == init[rest[k]];
      }
    }
  }

  predicate Increasing(xs: seq<nat>) {
    forall k1, k2 :: 0 <= k1 < k2 < |xs| ==> xs[k1] < xs[k2]
  }

  /** `EmitIndices` is strictly increasing. */
  lemma {:induction false} EmitIndicesIncreasing(steps: seq<Step>)
    ensures Increasing(EmitIndices(steps))
  {
    if steps != [] {
      var n := |steps| - 1;
      var init := steps[..n];
      EmitIndicesIncreasing(init);
      var idx := EmitIndices(steps);
      var rest := EmitIndices(init);
      assert idx == rest + (if steps[n].Emit? then [n] else []);
      forall k1, k2 | 0 <= k1 < k2 < |idx|
        ensures idx[k1] < idx[k2]
      {
        assert idx[k1] == rest[k1];
        assert rest[k1] < |init| == n;
        if k2 < |rest| {
          assert idx[k2] == rest[k2];
          assert rest[k1] < rest[k2];
        } else {
          assert idx[k2] == n;
        }
      }
    }
  }

  /** Every emitting position is in `EmitIndices`. */
  lemma {:induction false} EmitIndicesComplete(steps: seq<Step>)
    ensures forall j :: 0 <= j < |steps| && steps[j].Emit? ==> j in EmitIndices(steps)
  {
    if steps != [] {
      var n := |steps| - 1;
      var init := steps[..n];
      EmitIndicesComplete(init);
      var idx := EmitIndices(steps);
      var rest := EmitIndices(init);
      assert idx == rest + (if steps[n].Emit? then [n] else []);
      forall j | 0 <= j < |steps| && steps[j].Emit?
        ensures j in idx
      {
        if j < n {
          assert init[j] == steps[j];
          assert j in rest;
        }
      }
    }
  }

  /** A position is in `EmitIndices` exactly when its step emits. */
  lemma EmitIndicesExact(steps: seq<Step>)
    ensures forall j :: 0 <= j < |steps| ==> (j in EmitIndices(steps) <==> steps[j].Emit?)
  {
    var idx := EmitIndices(steps);
    EmitIndicesHit(steps);
    EmitIndicesComplete(steps);
    forall j | 0 <= j < |steps| && j in idx
      ensures steps[j].Emit?
    {
      var k :| 0 <= k < |idx| && idx[k] == j;
    }
  }

  lemma {:induction false} FirstAbortSnoc(steps: seq<Step>, s: Step)
    ensures FirstAbort(steps + [s]) ==
              if FirstAbort(steps).Some? then FirstAbort(steps)
              else if s.Abort? then Some(s.reason) else None
  {
    if steps == [] {
      assert steps + [s] == [s];
    } else {
      assert (steps + [s])[1..] == steps[1..] + [s];
      FirstAbortSnoc(steps[1..], s);
    }
  }

  /** A loop stops at its first error; otherwise it returns exactly the
      emitted records in order. */
  lemma {:induction false} CollectSpec(steps: seq<Step>)
    ensures Collect(steps) ==
              if FirstAbort(steps).Some? then Failure(FirstAbort(steps).value)
              else Success(Emitted(steps))
  {
    if steps != [] {
      var init := steps[..|steps| - 1];
      var last := steps[|steps| - 1];
      assert steps == init + [last];
      CollectSpec(init);
      FirstAbortSnoc(init, last);
      assert Emitted(steps) == Emitted(init) + (if last.Emit? then [last.event] else []);
      if FirstAbort(init).None? {
        assert FirstAbort(steps) == FirstAbort(init + [last]);
        match last {
          case Skip =>
            assert Emitted(steps) == Emitted(init) + [];
            assert Emitted(init) + [] == Emitted(init);
          case Emit(e) =>
          case Abort(m) =>
            assert FirstAbort(steps) == Some(m);
        }
      }
    }
  }

  /** The earliest aborting step is the loop's result. */
  lemma {:induction false} CollectStopsAtAbort(steps: seq<Step>, i: nat)
    requires i < |steps| && Collect(steps[..i]).Success? && steps[i].Abort?
    ensures Collect(steps) == Failure(steps[i].reason)
    decreases |steps|
  {
    var init := steps[..|steps| - 1];
    if |steps| == i + 1 {
      assert init == steps[..i];
    } else {
      assert init[..i] == steps[..i];
      CollectStopsAtAbort(init, i);
    }
  }

  /** One more step of the loop. */
  lemma CollectSnoc(steps: seq<Step>, i: nat)
    requires i < |steps|
    ensures Collect(steps[..i + 1]) ==
              match Collect(steps[..i])
              case Failure(m) => Failure(m)
              case Success(items) =>
                match steps[i]
                case Skip => Success(items)
                case Emit(e) => Success(items + [e])
                case Abort(m) => Failure(m)
  {
    assert steps[..i + 1][..i] == steps[..i];
  }

  // =====================================================================
  // Yandex Afisha (CRM)
  // =====================================================================

  /** An entry of `crm.event.list`. */
  datatype YandexEvent = YandexEvent(id: string, name: Option<string>, date: DateText, status: Option<int>)

  /** A row of `crm.report.event`. */
  datatype ReportRow = ReportRow(eventId: string, sold: Option<int>, available: Option<int>)

  datatype Tally = Tally(sold: int, total: int)

  const YandexEventUrl: string := "https://afisha.yandex.ru/events/"

  /** A report row's sold count, a missing value counting as 0. */
  function RowSold(r: ReportRow): int {
    r.sold.GetOr(0)
  }

  /** A report row's total: sold plus available, missing values as 0. */
  function RowTotal(r: ReportRow): int {
    r.sold.GetOr(0) + r.available.GetOr(0)
  }

  /** Sum of the sold counts of every row for `id`. */
  function SoldFor(rows: seq<ReportRow>, id: string): int {
    if rows == [] then 0
    else
      var last := rows[|rows| - 1];
      SoldFor(rows[..|rows| - 1], id) + (if last.eventId == id then RowSold(last) else 0)
  }

  /** Sum of the totals of every row for `id`. */
  function TotalFor(rows: seq<ReportRow>, id: string): int {
    if rows == [] then 0
    else
      var last := rows[|rows| - 1];
      TotalFor(rows[..|rows| - 1], id) + (if last.eventId == id then RowTotal(last) else 0)
  }

  function ReportIds(rows: seq<ReportRow>): set<string> {
    set i | 0 <= i < |rows| :: rows[i].eventId
  }

  /** The per-event statistics: one entry per reported id, holding the sums
      over all of that id's rows (duplicates add up, none overwrites). */
  function Stats(rows: seq<ReportRow>): map<string, Tally> {
    map id | id in ReportIds(rows) :: Tally(SoldFor(rows, id), TotalFor(rows, id))
  }

  /** With no negative availability, no event's sold count exceeds its total. */
  lemma {:induction false} SoldWithinTotal(rows: seq<ReportRow>, id: string)
    requires forall i :: 0 <= i < |rows| ==> rows[i].available.GetOr(0) >= 0
    ensures SoldFor(rows, id) <= TotalFor(rows, id)
  {
    if rows != [] {
      SoldWithinTotal(rows[..|rows| - 1], id);
    }
  }

  lemma StatsSnoc(rows: seq<ReportRow>, r: ReportRow)
    ensures var before := Stats(rows);
            var t := if r.eventId in before then before[r.eventId] else Tally(0, 0);
            Stats(rows + [r]) == before[r.eventId := Tally(t.sold + RowSold(r), t.total + RowTotal(r))]
  {
    var rows' := rows + [r];
    assert rows'[..|rows|] == rows;
    ReportIdsSnoc(rows, r);
    if r.eventId !in ReportIds(rows) {
      AbsentIdSumsToZero(rows, r.eventId);
    }
    var before := Stats(rows);
    var t := if r.eventId in before then before[r.eventId] else Tally(0, 0);
    var after := before[r.eventId := Tally(t.sold + RowSold(r), t.total + RowTotal(r))];
    assert Stats(rows').Keys == after.Keys;
    forall id | id in after ensures Stats(rows')[id] == after[id] {
      if id != r.eventId {
        assert after[id] == before[id];
      }
    }
  }

  lemma ReportIdsSnoc(rows: seq<ReportRow>, r: ReportRow)
    ensures ReportIds(rows + [r]) == ReportIds(rows) + {r.eventId}
  {
    var rows' := rows + [r];
    forall id | id in ReportIds(rows') ensures id in ReportIds(rows) + {r.eventId} {
      var i :| 0 <= i < |rows'| && rows'[i].eventId == id;
      if i < |rows| { assert rows[i] == rows'[i]; }
    }
    forall id | id in ReportIds(rows) ensures id in ReportIds(rows') {
      var i :| 0 <= i < |rows| && rows[i].eventId == id;
      assert rows'[i] == rows[i];
    }
    assert rows'[|rows|] == r;
  }

  lemma {:induction false} AbsentIdSumsToZero(rows: seq<ReportRow>, id: string)
    requires id !in ReportIds(rows)
    ensures SoldFor(rows, id) == 0 && TotalFor(rows, id) == 0
  {
    if rows != [] {
      var init := rows[..|rows| - 1];
      assert id !in ReportIds(init) by {
        forall i | 0 <= i < |init| ensures init[i].eventId != id {
          assert init[i] == rows[i];
        }
      }
      AbsentIdSumsToZero(init, id);
      assert rows[|rows| - 1].eventId != id;
    }
  }

  /** The `stats` loop of `parse_yandex`: `setdefault` then `+=` per row. */
  method MergeStats(rows: seq<ReportRow>) returns (stats: map<string, Tally>)
    ensures stats == Stats(rows)
  {
    stats := map[];
    var i := 0;
    while i < |rows|
      invariant 0 <= i <= |rows|
      invariant stats == Stats(rows[..i])
    {
      var row := rows[i];
      var s := if row.eventId in stats then stats[row.eventId] else Tally(0, 0);
      stats := stats[row.eventId := Tally(s.sold + RowSold(row), s.total + RowTotal(row))];
      StatsSnoc(rows[..i], row);
      assert rows[..i + 1] == rows[..i] + [row];
      i := i + 1;
    }
    assert rows[..i] == rows;
  }

  /** One iteration of the output loop of `parse_yandex`. */
  function YandexStep(ev: YandexEvent, stats: map<string, Tally>, now: int): (s: Step)
    ensures s.Emit? <==> ev.status == Some(1) && ParseDt(ev.date).Success? && ParseDt(ev.date).value >= now
    ensures s.Abort? <==> ev.status == Some(1) && ParseDt(ev.date).Failure?
    ensures s.Emit? ==>
              && s.event.externalId == ev.id
              && s.event.name == Strip(ev.name.GetOr(""))
              && s.event.source == Yandex
              && s.event.date == ParseDt(ev.date).value
              && s.event.url == YandexEventUrl + ev.id
              && s.event.ticketsSold == (if ev.id in stats then stats[ev.id].sold else 0)
              && s.event.ticketsTotal == (if ev.id in stats then stats[ev.id].total else 0)
  {
    if ev.status != Some(1) then Skip
    else
      match ParseDt(ev.date)
      case Failure(m) => Abort(m)
      case Success(dt) =>
        if dt < now then Skip
        else
          var st := if ev.id in stats then stats[ev.id] else Tally(0, 0);
          Emit(Event(ev.id, Strip(ev.name.GetOr("")), dt, st.sold, st.total, YandexEventUrl + ev.id, Yandex))
  }

  function YandexSteps(flat: seq<YandexEvent>, stats: map<string, Tally>, now: int): seq<Step> {
    seq(|flat|, j requires 0 <= j < |flat| => YandexStep(flat[j], stats, now))
  }

  /** `parse_yandex` as a value: the event list is flattened; an empty list
      ends it before the report is requested; otherwise the report is
      merged into `Stats` and the events are filtered and mapped. */
  function YandexEvents(eventList: Result<seq<Nested<YandexEvent>>, string>,
                        report: Result<seq<ReportRow>, string>, now: int): Result<seq<Event>, string>
  {
    match eventList
    case Failure(m) => Failure(m)
    case Success(raw) =>
      var flat := Flatten(raw);
      if flat == [] then Success([])
      else
        match report
        case Failure(m) => Failure(m)
        case Success(rows) => Collect(YandexSteps(flat, Stats(rows), now))
  }

  method ParseYandex(eventList: Result<seq<Nested<YandexEvent>>, string>,
                     report: Result<seq<ReportRow>, string>, now: int)
    returns (r: Result<seq<Event>, string>)
    ensures r == YandexEvents(eventList, report, now)
  {
    if eventList.Failure? {
      return Failure(eventList.error);
    }
    var flat := Flatten(eventList.value);
    if flat == [] {
      return Success([]);
    }
    if report.Failure? {
      return Failure(report.error);
    }
    var stats := MergeStats(report.value);
    ghost var steps := YandexSteps(flat, stats, now);
    var items: seq<Event> := [];
    var i := 0;
    while i < |flat|
      invariant 0 <= i <= |flat|
      invariant Collect(steps[..i]) == Success(items)
    {
      CollectSnoc(steps, i);
      match YandexStep(flat[i], stats, now) {
      case Skip =>
      case Emit(e) =>
        items := items + [e];
      case Abort(m) =>
        CollectStopsAtAbort(steps, i);
        return Failure(m);
      }
      i := i + 1;
    }
    assert steps[..i] == steps;
    r := Success(items);
  }

  /** An empty event list returns `[]` whatever the report call would have
      answered, so the report is never needed. */
  lemma YandexEmptyListSkipsReport(raw: seq<Nested<YandexEvent>>, report: Result<seq<ReportRow>, string>, now: int)
    requires Flatten(raw) == []
    ensures YandexEvents(Success(raw), report, now) == Success([])
  {
  }

  /** `parse_yandex` keeps exactly the flattened events with status 1 and a
      date not before `now`, in input order, with the synthesised url and
      the merged counts (0/0 when the report has no row for the id). */
  lemma YandexKeepsLiveInOrder(raw: seq<Nested<YandexEvent>>, rows: seq<ReportRow>, now: int)
    requires YandexEvents(Success(raw), Success(rows), now).Success?
    ensures var flat := Flatten(raw);
            var items := YandexEvents(Success(raw), Success(rows), now).value;
            var idx := EmitIndices(YandexSteps(flat, Stats(rows), now));
            && |items| == |idx|
            && (forall k1, k2 :: 0 <= k1 < k2 < |idx| ==> idx[k1] < idx[k2])
            && (forall j :: 0 <= j < |flat| ==>
                  (j in idx <==> flat[j].status == Some(1) && ParseDt(flat[j].date).Success? && ParseDt(flat[j].date).value >= now))
            && (forall k :: 0 <= k < |idx| ==>
                  && idx[k] < |flat|
                  && items[k].externalId == flat[idx[k]].id
                  && items[k].source == Yandex
                  && ParseDt(flat[idx[k]].date).Success?
                  && items[k].date == ParseDt(flat[idx[k]].date).value
                  && items[k].date >= now
                  && items[k].name == Strip(flat[idx[k]].name.GetOr(""))
                  && items[k].url == YandexEventUrl + flat[idx[k]].id
                  && (flat[idx[k]].id in ReportIds(rows) ==>
                        items[k].ticketsSold == SoldFor(rows, flat[idx[k]].id)
                        && items[k].ticketsTotal == TotalFor(rows, flat[idx[k]].id))
                  && (flat[idx[k]].id !in ReportIds(rows) ==> items[k].ticketsSold == 0 && items[k].ticketsTotal == 0))
  {
    var flat := Flatten(raw);
    var steps := YandexSteps(flat, Stats(rows), now);
    NoAbortOnSuccess(steps);
    EmitIndicesIncreasing(steps);
    YandexSelects(flat, Stats(rows), now);
    YandexEmitFields(flat, rows, now);
  }

  /** A flattened event is emitted exactly when it has status 1 and a
      parseable date not before `now`. */
  lemma YandexSelects(flat: seq<YandexEvent>, stats: map<string, Tally>, now: int)
    ensures var idx := EmitIndices(YandexSteps(flat, stats, now));
            forall j :: 0 <= j < |flat| ==>
              (j in idx <==> flat[j].status == Some(1) && ParseDt(flat[j].date).Success? && ParseDt(flat[j].date).value >= now)
  {
    var steps := YandexSteps(flat, stats, now);
    EmitIndicesExact(steps);
    forall j | 0 <= j < |flat|
      ensures steps[j].Emit? <==> flat[j].status == Some(1) && ParseDt(flat[j].date).Success? && ParseDt(flat[j].date).value >= now
    {
      assert steps[j] == YandexStep(flat[j], stats, now);
    }
  }

  /** The `k`-th emitted record carries the id, url, date and counts of the
      event at the `k`-th emitting position. */
  lemma YandexEmitFields(flat: seq<YandexEvent>, rows: seq<ReportRow>, now: int)
    ensures var steps := YandexSteps(flat, Stats(rows), now);
            var items := Emitted(steps);
            var idx := EmitIndices(steps);
            forall k :: 0 <= k < |idx| ==>
              && items[k].externalId == flat[idx[k]].id
              && items[k].source == Yandex
              && ParseDt(flat[idx[k]].date).Success?
              && items[k].date == ParseDt(flat[idx[k]].date).value
              && items[k].date >= now
              && items[k].name == Strip(flat[idx[k]].name.GetOr(""))
              && items[k].url == YandexEventUrl + flat[idx[k]].id
              && (flat[idx[k]].id in ReportIds(rows) ==>
                    items[k].ticketsSold == SoldFor(rows, flat[idx[k]].id)
                    && items[k].ticketsTotal == TotalFor(rows, flat[idx[k]].id))
              && (flat[idx[k]].id !in ReportIds(rows) ==> items[k].ticketsSold == 0 && items[k].ticketsTotal == 0)
  {
    var st := Stats(rows);
    var steps := YandexSteps(flat, st, now);
    var items := Emitted(steps);
    var idx := EmitIndices(steps);
    EmitIndicesHit(steps);
    forall k | 0 <= k < |idx|
      ensures && items[k].externalId == flat[idx[k]].id
              && items[k].source == Yandex
              && ParseDt(flat[idx[k]].date).Success?
              && items[k].date == ParseDt(flat[idx[k]].date).value
              && items[k].date >= now
              && items[k].name == Strip(flat[idx[k]].name.GetOr(""))
              && items[k].url == YandexEventUrl + flat[idx[k]].id
              && (flat[idx[k]].id in ReportIds(rows) ==>
                    items[k].ticketsSold == SoldFor(rows, flat[idx[k]].id)
                    && items[k].ticketsTotal == TotalFor(rows, flat[idx[k]].id))
              && (flat[idx[k]].id !in ReportIds(rows) ==> items[k].ticketsSold == 0 && items[k].ticketsTotal == 0)
    {
      var j := idx[k];
      assert steps[j] == YandexStep(flat[j], st, now);
      assert steps[j] == Emit(items[k]);
    }
  }

  /** Some step aborts exactly when `FirstAbort` finds one. */
  lemma {:induction false} AbortMeansFirstAbort(steps: seq<Step>, j: nat)
    requires j < |steps| && steps[j].Abort?
    ensures FirstAbort(steps).Some?
  {
    if j > 0 && !steps[0].Abort? {
      AbortMeansFirstAbort(steps[1..], j - 1);
    }
  }
  /** A loop that returned its records met no aborting step, and returned
      the emitted records. */
  lemma NoAbortOnSuccess(steps: seq<Step>)
    requires Collect(steps).Success?
    ensures forall j :: 0 <= j < |steps| ==> !steps[j].Abort?
    ensures Collect(steps).value == Emitted(steps)
  {
    CollectSpec(steps);
    forall j | 0 <= j < |steps| ensures !steps[j].Abort? {
      if steps[j].Abort? {
        AbortMeansFirstAbort(steps, j);
      }
    }
  }

  /** Whenever no report row has a negative availability, every event
      `parse_yandex` emits has sold at most total. */
  lemma YandexSoldWithinTotal(raw: seq<Nested<YandexEvent>>, rows: seq<ReportRow>, now: int)
    requires YandexEvents(Success(raw), Success(rows), now).Success?
    requires forall i :: 0 <= i < |rows| ==> rows[i].available.GetOr(0) >= 0
    ensures forall e :: e in YandexEvents(Success(raw), Success(rows), now).value ==> e.ticketsSold <= e.ticketsTotal
  {
    var flat := Flatten(raw);
    var steps := YandexSteps(flat, Stats(rows), now);
    CollectSpec(steps);
    var items := Emitted(steps);
    var idx := EmitIndices(steps);
    EmitIndicesHit(steps);
    forall e | e in items ensures e.ticketsSold <= e.ticketsTotal {
      var k :| 0 <= k < |items| && items[k] == e;
      var ev := flat[idx[k]];
      assert steps[idx[k]] == YandexStep(ev, Stats(rows), now);
      if ev.id in Stats(rows) {
        SoldWithinTotal(rows, ev.id);
      }
    }
  }

  // =====================================================================
  // GoStandUp
  // =====================================================================

  /** A `{sold, total}` block of the `tickets` object. */
  datatype Counts = Counts(sold: Option<int>, total: Option<int>)

  /** The `tickets` object: `seats` and `amount`, each possibly missing. */
  datatype GoTickets = GoTickets(seats: Option<Counts>, amount: Option<Counts>)

  /** An entry of the GoStandUp `events` list. */
  datatype GoEvent = GoEvent(
    id: string,
    title: Option<string>,
    date: DateText,
    tickets: Option<GoTickets>,
    link: Option<string>,
    url: Option<string>)

  const GoStandUpEventUrl: string := "https://gostandup.ru/event/"

  /** `(ev.get("tickets", {}) or {}).get("seats", {}) or {}`. */
  function SeatsOf(ev: GoEvent): Counts {
    if ev.tickets.Some? then ev.tickets.value.seats.GetOr(Counts(None, None)) else Counts(None, None)
  }

  /** `(ev.get("tickets", {}) or {}).get("amount", {}) or {}`. */
  function AmountOf(ev: GoEvent): Counts {
    if ev.tickets.Some? then ev.tickets.value.amount.GetOr(Counts(None, None)) else Counts(None, None)
  }

  /** One iteration of the loop of `parse_gostandup`. When `seats.total`
      is truthy both counts come from `seats`, otherwise both from `amount`
      with 0 for a missing value. A truthy `seats.total` without
      `seats.sold` yields a NULL `tickets_sold`, which the NOT NULL column
      rejects before any commit; that is an abort here. */
  function GoStandUpStep(ev: GoEvent): (s: Step)
    ensures !s.Skip?
    ensures s.Abort? <==> ParseDt(ev.date).Failure? || (Truthy(SeatsOf(ev).total) && SeatsOf(ev).sold.None?)
    ensures s.Emit? ==>
              && s.event.externalId == ev.id
              && s.event.name == Strip(OrText(ev.title, None, ""))
              && s.event.source == GoStandUp
              && s.event.date == ParseDt(ev.date).value
              && s.event.url == (if Filled(ev.link) then ev.link.value
                                 else if Filled(ev.url) then ev.url.value
                                 else GoStandUpEventUrl + ev.id)
    ensures s.Emit? && Truthy(SeatsOf(ev).total) ==>
              s.event.ticketsSold == SeatsOf(ev).sold.value && s.event.ticketsTotal == SeatsOf(ev).total.value
    ensures s.Emit? && !Truthy(SeatsOf(ev).total) ==>
              s.event.ticketsSold == AmountOf(ev).sold.GetOr(0) && s.event.ticketsTotal == AmountOf(ev).total.GetOr(0)
  {
    var seats := SeatsOf(ev);
    var amt := AmountOf(ev);
    var sold := if Truthy(seats.total) then seats.sold else Some(amt.sold.GetOr(0));
    var total := if Truthy(seats.total) then seats.total.value else amt.total.GetOr(0);
    match ParseDt(ev.date)
    case Failure(m) => Abort(m)
    case Success(dt) =>
      if sold.None? then Abort("NOT NULL constraint failed: concerts.tickets_sold")
      else
        Emit(Event(ev.id, Strip(OrText(ev.title, None, "")), dt, sold.value, total,
                   OrText(ev.link, ev.url, GoStandUpEventUrl + ev.id), GoStandUp))
  }

  function GoStandUpSteps(evs: seq<GoEvent>): seq<Step> {
    seq(|evs|, j requires 0 <= j < |evs| => GoStandUpStep(evs[j]))
  }

  /** `parse_gostandup` as a value. */
  function GoStandUpEvents(response: Result<seq<GoEvent>, string>): Result<seq<Event>, string> {
    match response
    case Failure(m) => Failure(m)
    case Success(evs) => Collect(GoStandUpSteps(evs))
  }

  method ParseGoStandUp(response: Result<seq<GoEvent>, string>) returns (r: Result<seq<Event>, string>)
    ensures r == GoStandUpEvents(response)
  {
    if response.Failure? {
      return Failure(response.error);
    }
    var evs := response.value;
    ghost var steps := GoStandUpSteps(evs);
    var items: seq<Event> := [];
    var i := 0;
    while i < |evs|
      invariant 0 <= i <= |evs|
      invariant Collect(steps[..i]) == Success(items)
    {
      CollectSnoc(steps, i);
      match GoStandUpStep(evs[i]) {
      case Skip =>
      case Emit(e) =>
        items := items + [e];
      case Abort(m) =>
        CollectStopsAtAbort(steps, i);
        return Failure(m);
      }
      i := i + 1;
    }
    assert steps[..i] == steps;
    r := Success(items);
  }

  /** `parse_gostandup` emits one record per input event, in order, with no
      status or date filter. */
  lemma GoStandUpOnePerEvent(evs: seq<GoEvent>)
    requires GoStandUpEvents(Success(evs)).Success?
    ensures var items := GoStandUpEvents(Success(evs)).value;
            && |items| == |evs|
            && forall k :: 0 <= k < |evs| ==>
                 && Emit(items[k]) == GoStandUpStep(evs[k])
                 && items[k].externalId == evs[k].id && items[k].source == GoStandUp
                 && ParseDt(evs[k].date).Success? && items[k].date == ParseDt(evs[k].date).value
  {
    var steps := GoStandUpSteps(evs);
    NoAbortOnSuccess(steps);
    EmittedAllEmit(steps);
    forall k | 0 <= k < |evs| ensures Emit(GoStandUpEvents(Success(evs)).value[k]) == GoStandUpStep(evs[k]) {
      assert steps[k] == GoStandUpStep(evs[k]);
    }
  }

  /** When every step emits, the loop returns one record per step. */
  lemma {:induction false} EmittedAllEmit(steps: seq<Step>)
    requires forall j :: 0 <= j < |steps| ==> steps[j].Emit?
    ensures |Emitted(steps)| == |steps|
    ensures forall k :: 0 <= k < |steps| ==> Emitted(steps)[k] == steps[k].event
  {
    if steps != [] {
      var init := steps[..|steps| - 1];
      EmittedAllEmit(init);
    }
  }

  // =====================================================================
  // Timepad
  // =====================================================================

  /** An entry of an event's `dates` list. */
  datatype DateSlot = DateSlot(start: DateText, date: DateText)

  /** An entry of `ticket_types`. */
  datatype TicketType = TicketType(sold: Option<int>, total: Option<int>, count: Option<int>)

  /** A numeric field of the registration place: a missing key, a key
      holding JSON `null`, or a number. `place.get(key, 0)` tells the first
      two apart. */
  datatype Field = Absent | Null | Num(n: int)

  /** The registration place `fetch_registration` returns. */
  datatype Registration = Registration(registered: Field, count: Field, limit: Field, capacity: Field)

  /** `place.get(a, 0) or place.get(b, 0)`: the first field when it holds a
      non-zero number, otherwise the second, where a missing key reads as 0
      and `null` as `None`. */
  function OrField(a: Field, b: Field): (r: Option<int>)
    ensures r.None? <==> !(a.Num? && a.n != 0) && b.Null?
    ensures r.Some? ==> r.value == (if a.Num? && a.n != 0 then a.n else if b.Num? then b.n else 0)
  {
    var first := if a.Num? then Some(a.n) else if a.Absent? then Some(0) else None;
    if Truthy(first) then first
    else if b.Num? then Some(b.n) else if b.Absent? then Some(0) else None
  }

  /** A registration place whose sold or total count comes out `None`; the
      NOT NULL columns reject such a record before any commit. */
  predicate NullCount(reg: Registration) {
    OrField(reg.registered, reg.count).None? || OrField(reg.limit, reg.capacity).None?
  }

  /** An entry of the Timepad `values` list. */
  datatype TimepadEvent = TimepadEvent(
    id: Option<string>,
    name: Option<string>,
    title: Option<string>,
    dates: Option<seq<DateSlot>>,
    startsAt: DateText,
    ticketTypes: Option<seq<TicketType>>,
    url: Option<string>,
    siteUrl: Option<string>)

  const TimepadApiUrl: string := "https://api.timepad.ru/v1"

  /** `str(ev.get("id"))`: a missing id prints as "None". */
  function TimepadId(ev: TimepadEvent): string {
    if ev.id.Some? then ev.id.value else "None"
  }

  /** The date fallback chain: `dates[0].start`, `dates[0].date` (only when
      `dates` is non-empty), then `starts_at`. */
  function DateCandidates(ev: TimepadEvent): seq<DateText> {
    var ds := ev.dates.GetOr([]);
    (if ds != [] then [ds[0].start, ds[0].date] else []) + [ev.startsAt]
  }

  /** The first non-empty candidate, or `Blank` when all are empty. */
  function FirstFilled(cs: seq<DateText>): (d: DateText)
    ensures d.Blank? <==> forall k :: 0 <= k < |cs| ==> cs[k].Blank?
    ensures !d.Blank? ==> exists k :: 0 <= k < |cs| && cs[k] == d && forall j :: 0 <= j < k ==> cs[j].Blank?
  {
    if cs == [] then Blank
    else if !cs[0].Blank? then cs[0]
    else
      var d := FirstFilled(cs[1..]);
      assert !d.Blank? ==> exists k :: 0 <= k < |cs| && cs[k] == d && forall j :: 0 <= j < k ==> cs[j].Blank? by {
        if !d.Blank? {
          var k :| 0 <= k < |cs[1..]| && cs[1..][k] == d && forall j :: 0 <= j < k ==> cs[1..][j].Blank?;
          assert cs[k + 1] == d && forall j :: 0 <= j < k + 1 ==> cs[j].Blank?;
        }
      }
      d
  }

  function TimepadDate(ev: TimepadEvent): DateText {
    FirstFilled(DateCandidates(ev))
  }

  /** `sum(t.get("sold") or 0 for t in tt)`. */
  function SumSold(tt: seq<TicketType>): int {
    if tt == [] then 0 else OrInt(tt[0].sold, None) + SumSold(tt[1..])
  }

  /** `sum(t.get("total") or t.get("count") or 0 for t in tt)`. */
  function SumTotal(tt: seq<TicketType>): int {
    if tt == [] then 0 else OrInt(tt[0].total, tt[0].count) + SumTotal(tt[1..])
  }

  /** One iteration of the loop of `parse_timepad`. `registration` answers
      the per-event registration request. */
  function TimepadStep(ev: TimepadEvent, registration: string -> Result<Registration, string>): (s: Step)
    ensures s.Skip? <==> forall k :: 0 <= k < |DateCandidates(ev)| ==> DateCandidates(ev)[k].Blank?
    ensures s.Abort? <==>
              && !TimepadDate(ev).Blank?
              && (|| ParseDt(TimepadDate(ev)).Failure?
                  || (&& ev.ticketTypes.GetOr([]) == []
                      && (registration(TimepadId(ev)).Failure? || NullCount(registration(TimepadId(ev)).value))))
    ensures s.Emit? ==>
              && s.event.externalId == TimepadId(ev)
              && s.event.name == Strip(OrText(ev.name, ev.title, ""))
              && s.event.source == Timepad
              && s.event.date == ParseDt(TimepadDate(ev)).value
              && s.event.url == OrText(ev.url, ev.siteUrl, TimepadApiUrl + "/events/" + TimepadId(ev))
    ensures s.Emit? && ev.ticketTypes.GetOr([]) != [] ==>
              s.event.ticketsSold == SumSold(ev.ticketTypes.value)
              && s.event.ticketsTotal == SumTotal(ev.ticketTypes.value)
    ensures s.Emit? && ev.ticketTypes.GetOr([]) == [] ==>
              && registration(TimepadId(ev)).Success?
              && var reg := registration(TimepadId(ev)).value;
                 s.event.ticketsSold == OrField(reg.registered, reg.count).value
                 && s.event.ticketsTotal == OrField(reg.limit, reg.capacity).value
  {
    var ext := TimepadId(ev);
    var name := Strip(OrText(ev.name, ev.title, ""));
    var raw := TimepadDate(ev);
    if raw.Blank? then Skip
    else
      match ParseDt(raw)
      case Failure(m) => Abort(m)
      case Success(dt) =>
        var url := OrText(ev.url, ev.siteUrl, TimepadApiUrl + "/events/" + ext);
        var tt := ev.ticketTypes.GetOr([]);
        if tt != [] then
          Emit(Event(ext, name, dt, SumSold(tt), SumTotal(tt), url, Timepad))
        else
          match registration(ext)
          case Failure(m) => Abort(m)
          case Success(reg) =>
            var sold := OrField(reg.registered, reg.count);
            var total := OrField(reg.limit, reg.capacity);
            if sold.None? then Abort("NOT NULL constraint failed: concerts.tickets_sold")
            else if total.None? then Abort("NOT NULL constraint failed: concerts.tickets_total")
            else Emit(Event(ext, name, dt, sold.value, total.value, url, Timepad))
  }

  function TimepadSteps(evs: seq<TimepadEvent>, registration: string -> Result<Registration, string>): seq<Step> {
    seq(|evs|, j requires 0 <= j < |evs| => TimepadStep(evs[j], registration))
  }

  /** `parse_timepad` as a value. */
  function TimepadEvents(response: Result<seq<TimepadEvent>, string>,
                         registration: string -> Result<Registration, string>): Result<seq<Event>, string>
  {
    match response
    case Failure(m) => Failure(m)
    case Success(evs) => Collect(TimepadSteps(evs, registration))
  }

  method ParseTimepad(response: Result<seq<TimepadEvent>, string>,
                      registration: string -> Result<Registration, string>)
    returns (r: Result<seq<Event>, string>)
    ensures r == TimepadEvents(response, registration)
  {
    if response.Failure? {
      return Failure(response.error);
    }
    var evs := response.value;
    ghost var steps := TimepadSteps(evs, registration);
    var items: seq<Event> := [];
    var i := 0;
    while i < |evs|
      invariant 0 <= i <= |evs|
      invariant Collect(steps[..i]) == Success(items)
    {
      CollectSnoc(steps, i);
      match TimepadStep(evs[i], registration) {
      case Skip =>
      case Emit(e) =>
        items := items + [e];
      case Abort(m) =>
        CollectStopsAtAbort(steps, i);
        return Failure(m);
      }
      i := i + 1;
    }
    assert steps[..i] == steps;
    r := Success(items);
  }

  /** `parse_timepad` keeps exactly the events that have a date somewhere in
      the fallback chain, in input order, with no date filter. */
  lemma TimepadKeepsDatedInOrder(evs: seq<TimepadEvent>, registration: string -> Result<Registration, string>)
    requires TimepadEvents(Success(evs), registration).Success?
    ensures var items := TimepadEvents(Success(evs), registration).value;
            var idx := EmitIndices(TimepadSteps(evs, registration));
            && |items| == |idx|
            && (forall k1, k2 :: 0 <= k1 < k2 < |idx| ==> idx[k1] < idx[k2])
            && (forall j :: 0 <= j < |evs| ==> (j in idx <==> !TimepadDate(evs[j]).Blank?))
            && (forall k :: 0 <= k < |idx| ==>
                  && idx[k] < |evs|
                  && Emit(items[k]) == TimepadStep(evs[idx[k]], registration)
                  && items[k].externalId == TimepadId(evs[idx[k]])
                  && ParseDt(TimepadDate(evs[idx[k]])).Success?
                  && items[k].date == ParseDt(TimepadDate(evs[idx[k]])).value)
  {
    var steps := TimepadSteps(evs, registration);
    var items := TimepadEvents(Success(evs), registration).value;
    var idx := EmitIndices(steps);
    NoAbortOnSuccess(steps);
    EmitIndicesExact(steps);
    EmitIndicesHit(steps);
    EmitIndicesIncreasing(steps);
    forall j | 0 <= j < |evs|
      ensures j in idx <==> !TimepadDate(evs[j]).Blank?
    {
      assert steps[j] == TimepadStep(evs[j], registration);
    }
    forall k | 0 <= k < |idx|
      ensures && Emit(items[k]) == TimepadStep(evs[idx[k]], registration)
              && items[k].externalId == TimepadId(evs[idx[k]])
              && ParseDt(TimepadDate(evs[idx[k]])).Success?
              && items[k].date == ParseDt(TimepadDate(evs[idx[k]])).value
    {
      var j := idx[k];
      assert steps[j] == TimepadStep(evs[j], registration);
      assert steps[j] == Emit(items[k]);
    }
  }
}
