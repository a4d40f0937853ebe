/** Per-parcel coalescing of outage intervals into events (map.py:51-78).

    Each parcel's joined outage rows are sorted by start and swept once. A row whose start
    lies strictly after the current event's end opens a new event; any other row stretches
    the current event's end to the later of the two ends. Events with a missing endpoint are
    then dropped, and each surviving event is reported with its length in whole hours.

    A missing value (pandas NaN) is `None`. Comparisons follow Python: `a > b` is false when
    either side is missing, and the builtin `max(cur, new)` keeps `cur` unless `new > cur`. */
module Coalesce {
  import opened Wrappers
  import opened Hours

  /** One joined outage row of a parcel: `start` is OFF_DTTM and `end` is ON_DTTM, in ms. A
      parcel that intersects no outage has a single row with both missing. */
  datatype Row = Row(start: Option<int>, end: Option<int>)

  /** An entry of `event_mapping`: the current extent of one event. */
  datatype Window = Window(start: Option<int>, end: Option<int>)

  /** One record of `landuse_events`. */
  datatype Event = Event(landuseId: nat, eventId: nat, start: int, end: int, length: int)

  // ----- Python comparisons on possibly missing values -----

  /** `a > b`, false when either side is missing. */
  predicate After(a: Option<int>, b: Option<int>)
  {
    a.Some? && b.Some? && a.value > b.value
  }

  /** `max(cur, next)`: `next` replaces `cur` only when `next > cur`. */
  function LaterEnd(cur: Option<int>, next: Option<int>): (r: Option<int>)
    ensures r == cur || r == next
    ensures cur.None? ==> r.None?
    ensures cur.Some? ==> r.Some? && r.value >= cur.value
    ensures cur.Some? && next.Some? ==> r.value >= next.value
  {
    if After(next, cur) then next else cur
  }

  /** `newEnd` is where an end `oldEnd` can be stretched to: a missing end stays missing, a
      known end only grows. */
  predicate Grows(newEnd: Option<int>, oldEnd: Option<int>)
  {
    if oldEnd.None? then newEnd.None? else newEnd.Some? && newEnd.value >= oldEnd.value
  }

  /** An event end `e` covers a row end `r` whenever both are known. */
  predicate Bounds(e: Option<int>, r: Option<int>)
  {
    e.Some? && r.Some? ==> e.value >= r.value
  }

  // ----- sort_values(by='start') -----

  /** The order of `sort_values`: known starts ascending, missing starts last. */
  predicate StartLe(a: Option<int>, b: Option<int>)
  {
    b.None? || (a.Some? && a.value <= b.value)
  }

  predicate SortedByStart(rows: seq<Row>)
  {
    forall i, j :: 0 <= i < j < |rows| ==> StartLe(rows[i].start, rows[j].start)
  }

  /** Inserts `r` after the last row that does not start later than it. */
  function InsertByStart(r: Row, rows: seq<Row>): (out: seq<Row>)
    ensures |out| == |rows| + 1
  {
    if rows == [] then [r]
    else if StartLe(rows[|rows| - 1].start, r.start) then rows + [r]
    else InsertByStart(r, rows[..|rows| - 1]) + [rows[|rows| - 1]]
  }

  /** Insertion into a sorted list keeps it sorted and adds exactly the inserted row. */
  lemma {:induction false} InsertSorted(r: Row, rows: seq<Row>)
    requires SortedByStart(rows)
    ensures SortedByStart(InsertByStart(r, rows))
    ensures multiset(InsertByStart(r, rows)) == multiset(rows) + multiset{r}
  {
    if rows != [] {
      var init := rows[..|rows| - 1];
      var last := rows[|rows| - 1];
      assert rows == init + [last];
      if !StartLe(last.start, r.start) {
        InsertSorted(r, init);
        var mid := InsertByStart(r, init);
        var out := mid + [last];
        forall i, j | 0 <= i < j < |out| ensures StartLe(out[i].start, out[j].start) {
          if j == |mid| {
            assert out[i] in multiset(mid);
            assert out[i] == r || out[i] in init;
          } else {
            assert out[i] == mid[i] && out[j] == mid[j];
          }
        }
      }
    }
  }

  /** The rows of a parcel in the order the sweep visits them (an insertion sort, so rows
      with equal starts keep their order). */
  function SortByStart(rows: seq<Row>): (out: seq<Row>)
    ensures |out| == |rows|
  {
    if rows == [] then [] else InsertByStart(rows[|rows| - 1], SortByStart(rows[..|rows| - 1]))
  }

  /** The sort orders the rows by start. */
  lemma {:induction false} SortSortsRows(rows: seq<Row>)
    ensures SortedByStart(SortByStart(rows))
  {
    if rows != [] {
      var init, last := rows[..|rows| - 1], rows[|rows| - 1];
      SortSortsRows(init);
      InsertSorted(last, SortByStart(init));
    }
  }

  /** The sort is a permutation of the rows. */
  lemma {:induction false} SortPermutesRows(rows: seq<Row>)
    ensures multiset(SortByStart(rows)) == multiset(rows)
  {
    if rows != [] {
      var init, last := rows[..|rows| - 1], rows[|rows| - 1];
      SortPermutesRows(init);
      SortSortsRows(init);
      InsertSorted(last, SortByStart(init));
      assert rows == init + [last];
    }
  }

  // ----- The sweep -----

  /** The row opens a new event: there is none yet, or it starts strictly after the current
      event's end. */
  predicate Opens(ws: seq<Window>, r: Row)
  {
    ws == [] || After(r.start, ws[|ws| - 1].end)
  }

  /** One step of the loop of map.py:57-68 on the events so far. */
  function Absorb(ws: seq<Window>, r: Row): (ws2: seq<Window>)
    ensures Opens(ws, r) ==> ws2 == ws + [Window(r.start, r.end)]
    ensures !Opens(ws, r) ==> |ws2| == |ws| && forall k :: 0 <= k < |ws| - 1 ==> ws2[k] == ws[k]
    ensures !Opens(ws, r) ==> ws2[|ws| - 1].start == ws[|ws| - 1].start
    ensures !Opens(ws, r) ==> ws2[|ws| - 1].end == LaterEnd(ws[|ws| - 1].end, r.end)
  {
    if Opens(ws, r) then ws + [Window(r.start, r.end)]
    else ws[|ws| - 1 := Window(ws[|ws| - 1].start, LaterEnd(ws[|ws| - 1].end, r.end))]
  }

  /** `event_mapping` after the rows, in order: entry `k + 1` of the dict is `Sweep(rows)[k]`. */
  function Sweep(rows: seq<Row>): (ws: seq<Window>)
    ensures |ws| <= |rows|
    ensures rows != [] ==> ws != []
  {
    if rows == [] then [] else Absorb(Sweep(rows[..|rows| - 1]), rows[|rows| - 1])
  }

  /** The event id each row is assigned (`outage_table.at[index, 'event_id']`): the number of
      events once the row has been absorbed. */
  function EventIds(rows: seq<Row>): (ids: seq<nat>)
    ensures |ids| == |rows|
  {
    seq(|rows|, i requires 0 <= i < |rows| => |Sweep(rows[..i + 1])|)
  }

  /** The events of one parcel with both endpoints known, numbered by their position among
      all of the parcel's events (map.py:69-78). */
  function Emitted(landuseId: nat, ws: seq<Window>): (es: seq<Event>)
    ensures |es| <= |ws|
    ensures forall t :: 0 <= t < |es| ==>
              && es[t].landuseId == landuseId
              && 1 <= es[t].eventId <= |ws|
              && ws[es[t].eventId - 1] == Window(Some(es[t].start), Some(es[t].end))
              && es[t].length == HoursBetween(es[t].start, es[t].end)
    ensures forall s, t :: 0 <= s < t < |es| ==> es[s].eventId < es[t].eventId
  {
    if ws == [] then []
    else
      var init := ws[..|ws| - 1];
      var w := ws[|ws| - 1];
      var rest := Emitted(landuseId, init);
      assert forall t :: 0 <= t < |rest| ==> ws[rest[t].eventId - 1] == init[rest[t].eventId - 1];
      if w.start.None? || w.end.None? then rest
      else rest + [Event(landuseId, |ws|, w.start.value, w.end.value, HoursBetween(w.start.value, w.end.value))]
  }

  /** The events of parcel `landuseId` from its joined rows. */
  function ParcelEvents(landuseId: nat, rows: seq<Row>): seq<Event>
  {
    Emitted(landuseId, Sweep(SortByStart(rows)))
  }

  /** `landuse_events`: the parcels in landuse-id order, `parcels[k]` the rows of parcel `k`. */
  function AllEvents(parcels: seq<seq<Row>>): (es: seq<Event>)
    ensures forall t :: 0 <= t < |es| ==> es[t].landuseId < |parcels|
  {
    if parcels == [] then []
    else AllEvents(parcels[..|parcels| - 1]) + ParcelEvents(|parcels| - 1, parcels[|parcels| - 1])
  }

  // ----- Unfolding -----

  lemma SweepSnoc(rows: seq<Row>, r: Row)
    ensures Sweep(rows + [r]) == Absorb(Sweep(rows), r)
  {
    assert (rows + [r])[..|rows|] == rows;
  }

  /** Row `i`'s event count after absorbing it, from the count before. */
  lemma SweepAt(rows: seq<Row>, i: nat)
    requires i < |rows|
    ensures Sweep(rows[..i + 1]) == Absorb(Sweep(rows[..i]), rows[i])
  {
    assert rows[..i + 1] == rows[..i] + [rows[i]];
    SweepSnoc(rows[..i], rows[i]);
  }

  // ----- Event ids -----

  /** The first row gets id 1; each later row gets the previous row's id plus one exactly
      when it opens a new event, and the previous row's id otherwise. */
  lemma EventIdsStep(rows: seq<Row>, i: nat)
    requires i < |rows|
    ensures i == 0 ==> EventIds(rows)[i] == 1
    ensures 0 < i && Opens(Sweep(rows[..i]), rows[i]) ==> EventIds(rows)[i] == EventIds(rows)[i - 1] + 1
    ensures 0 < i && !Opens(Sweep(rows[..i]), rows[i]) ==> EventIds(rows)[i] == EventIds(rows)[i - 1]
  {
    SweepAt(rows, i);
    if i == 0 {
      assert rows[..0] == [];
    } else {
      assert (i - 1) + 1 == i;
    }
  }

  /** The last row's id is the number of events. */
  lemma LastEventId(rows: seq<Row>)
    requires rows != []
    ensures EventIds(rows)[|rows| - 1] == |Sweep(rows)|
  {
    assert rows[..|rows|] == rows;
  }

  /** The ids are exactly 1, 2, ..., k, where k is the number of events: each row's id is in
      that range, and every id in it is some row's. */
  lemma {:induction false} EventIdsCover(rows: seq<Row>)
    ensures forall i :: 0 <= i < |rows| ==> 1 <= EventIds(rows)[i] <= |Sweep(rows)|
    ensures forall k :: 1 <= k <= |Sweep(rows)| ==> k in EventIds(rows)
  {
    if rows != [] {
      var n := |rows| - 1;
      var init := rows[..n];
      var r := rows[n];
      EventIdsCover(init);
      SweepAt(rows, n);
      assert rows[..n + 1] == rows;
      var ids := EventIds(rows);
      assert forall i :: 0 <= i < n ==> ids[i] == EventIds(init)[i] by {
        forall i | 0 <= i < n ensures ids[i] == EventIds(init)[i] {
          assert rows[..i + 1] == init[..i + 1];
        }
      }
      LastEventId(rows);
      forall k | 1 <= k <= |Sweep(rows)| ensures k in ids {
        if k == |Sweep(rows)| {
          assert ids[n] == k;
        } else {
          assert |Sweep(rows)| <= |Sweep(init)| + 1;
          assert k in EventIds(init);
          var i :| 0 <= i < |init| && EventIds(init)[i] == k;
          assert ids[i] == k;
        }
      }
    }
  }

  // ----- Shape of the events -----

  /** Consecutive events are separated: each starts strictly after the previous one ends. */
  predicate Separated(ws: seq<Window>)
  {
    forall k :: 0 < k < |ws| ==> After(ws[k].start, ws[k - 1].end)
  }

  /** The sweep's events are separated, whatever the row order: a row opens an event only by
      starting after the current end, and that end is final once the next event opens. */
  lemma {:induction false} SweepSeparated(rows: seq<Row>)
    ensures Separated(Sweep(rows))
  {
    if rows != [] {
      var n := |rows| - 1;
      SweepSeparated(rows[..n]);
      SweepAt(rows, n);
      assert rows[..n + 1] == rows;
    }
  }

  /** So every event but the last has a known end, and every event but the first a known
      start: at most the first and the last event are dropped for a missing endpoint. */
  lemma MissingOnlyAtEnds(rows: seq<Row>)
    ensures var ws := Sweep(rows);
            && (forall k :: 0 <= k < |ws| - 1 ==> ws[k].end.Some?)
            && (forall k :: 0 < k < |ws| ==> ws[k].start.Some?)
  {
    SweepSeparated(rows);
    var ws := Sweep(rows);
    forall k | 0 <= k < |ws| - 1 ensures ws[k].end.Some? {
      assert After(ws[k + 1].start, ws[k].end);
    }
  }

  /** `b` is a later state of the events `a`: the events before `a`'s last are unchanged, and
      `a`'s last keeps its start while its end can only grow. */
  predicate Settled(a: seq<Window>, b: seq<Window>)
  {
    && |a| <= |b|
    && (forall k :: 0 <= k < |a| - 1 ==> b[k] == a[k])
    && (a != [] ==> b[|a| - 1].start == a[|a| - 1].start && Grows(b[|a| - 1].end, a[|a| - 1].end))
  }

  lemma AbsorbSettles(ws: seq<Window>, r: Row)
    ensures Settled(ws, Absorb(ws, r))
  {
  }

  lemma SettledTrans(a: seq<Window>, b: seq<Window>, c: seq<Window>)
    requires Settled(a, b) && Settled(b, c)
    ensures Settled(a, c)
  {
    if a != [] && |a| < |b| {
      assert c[|a| - 1] == b[|a| - 1];
    }
  }

  /** Once rows have been absorbed, later rows only ever touch the last event so far. */
  lemma {:induction false} SweepSettles(rows: seq<Row>, i: nat)
    requires i <= |rows|
    ensures Settled(Sweep(rows[..i]), Sweep(rows))
  {
    if i == |rows| {
      assert rows[..i] == rows;
    } else {
      var n := |rows| - 1;
      SweepSettles(rows[..n], i);
      assert rows[..n][..i] == rows[..i];
      SweepAt(rows, n);
      assert rows[..n + 1] == rows;
      AbsorbSettles(Sweep(rows[..n]), rows[n]);
      SettledTrans(Sweep(rows[..i]), Sweep(rows[..n]), Sweep(rows));
    }
  }

  /** Ids of a prefix of the rows are the ids of those rows in the whole. */
  lemma EventIdsPrefix(rows: seq<Row>, m: nat)
    requires m <= |rows|
    ensures forall j :: 0 <= j < m ==> EventIds(rows[..m])[j] == EventIds(rows)[j]
  {
    forall j | 0 <= j < m ensures EventIds(rows[..m])[j] == EventIds(rows)[j] {
      assert rows[..m][..j + 1] == rows[..j + 1];
    }
  }

  /** The event a row opens starts at that row's start, and keeps that start. */
  lemma EventStartsAtOpener(rows: seq<Row>, i: nat)
    requires i < |rows| && (i == 0 || Opens(Sweep(rows[..i]), rows[i]))
    ensures 1 <= EventIds(rows)[i] <= |Sweep(rows)|
    ensures Sweep(rows)[EventIds(rows)[i] - 1].start == rows[i].start
  {
    var ws := Sweep(rows[..i]);
    var a := Sweep(rows[..i + 1]);
    SweepAt(rows, i);
    if i == 0 {
      assert rows[..0] == [];
    }
    assert Opens(ws, rows[i]);
    assert a == ws + [Window(rows[i].start, rows[i].end)];
    assert EventIds(rows)[i] == |a|;
    SweepSettles(rows, i + 1);
  }

  /** In sorted rows no event starts later than the last row. */
  lemma {:induction false} SweepStartsBounded(rows: seq<Row>)
    requires SortedByStart(rows) && rows != []
    ensures forall k :: 0 <= k < |Sweep(rows)| ==> StartLe(Sweep(rows)[k].start, rows[|rows| - 1].start)
  {
    var n := |rows| - 1;
    SweepAt(rows, n);
    assert rows[..n + 1] == rows;
    if n > 0 {
      assert SortedByStart(rows[..n]) by {
        forall i, j | 0 <= i < j < n ensures StartLe(rows[..n][i].start, rows[..n][j].start) {
          assert rows[..n][i] == rows[i] && rows[..n][j] == rows[j];
        }
      }
      SweepStartsBounded(rows[..n]);
      assert StartLe(rows[..n][n - 1].start, rows[n].start);
    }
  }

  /** The row just absorbed lies within the last event. */
  lemma AbsorbBounds(ws: seq<Window>, r: Row)
    ensures Absorb(ws, r) != [] && Bounds(Absorb(ws, r)[|Absorb(ws, r)| - 1].end, r.end)
  {
  }

  /** A later state of the events keeps the last event's bound on a row's end. */
  lemma SettledBounds(a: seq<Window>, b: seq<Window>, r: Option<int>)
    requires Settled(a, b) && a != [] && Bounds(a[|a| - 1].end, r)
    ensures |a| <= |b| && Bounds(b[|a| - 1].end, r)
  {
    GrowsBounds(b[|a| - 1].end, a[|a| - 1].end, r);
  }

  lemma GrowsBounds(e2: Option<int>, e: Option<int>, r: Option<int>)
    requires Grows(e2, e) && Bounds(e, r)
    ensures Bounds(e2, r)
  {
  }

  /** Every row lies within its event: the event's end is no earlier than the row's end
      (when both are known). */
  lemma RowCovered(rows: seq<Row>, i: nat)
    requires i < |rows|
    ensures 1 <= EventIds(rows)[i] <= |Sweep(rows)|
    ensures Bounds(Sweep(rows)[EventIds(rows)[i] - 1].end, rows[i].end)
  {
    var a := Sweep(rows[..i + 1]);
    assert EventIds(rows)[i] == |a|;
    assert a != [] && Bounds(a[|a| - 1].end, rows[i].end) by {
      SweepAt(rows, i);
      AbsorbBounds(Sweep(rows[..i]), rows[i]);
    }
    SweepSettles(rows, i + 1);
    SettledBounds(a, Sweep(rows), rows[i].end);
  }


  /** In sorted rows, the event a row is assigned to starts no later than the row. */
  lemma RowStartCovered(rows: seq<Row>, i: nat)
    requires i < |rows| && SortedByStart(rows)
    ensures 1 <= EventIds(rows)[i] <= |Sweep(rows)|
    ensures StartLe(Sweep(rows)[EventIds(rows)[i] - 1].start, rows[i].start)
  {
    var pre := rows[..i + 1];
    var a := Sweep(pre);
    assert EventIds(rows)[i] == |a| && a != [];
    var k := |a| - 1;
    assert StartLe(a[k].start, rows[i].start) by {
      SortedPrefix(rows, i + 1);
      SweepStartsBounded(pre);
      assert pre[|pre| - 1] == rows[i];
    }
    assert |a| <= |Sweep(rows)| && Sweep(rows)[k].start == a[k].start by {
      SweepSettles(rows, i + 1);
    }
  }

  /** A prefix of sorted rows is sorted. */
  lemma SortedPrefix(rows: seq<Row>, m: nat)
    requires m <= |rows| && SortedByStart(rows)
    ensures SortedByStart(rows[..m])
  {
    var pre := rows[..m];
    forall s, t | 0 <= s < t < |pre| ensures StartLe(pre[s].start, pre[t].start) {
      assert pre[s] == rows[s] && pre[t] == rows[t];
    }
  }

  /** Each event's end is the end of one of its own rows; with `RowCovered`, it is the latest
      end among them. */
  lemma {:induction false} EventEndAttained(rows: seq<Row>, k: nat)
    requires k < |Sweep(rows)|
    ensures exists j :: 0 <= j < |rows| && EventIds(rows)[j] == k + 1 && rows[j].end == Sweep(rows)[k].end
  {
    var n := |rows| - 1;
    var ws := Sweep(rows[..n]);
    SweepAt(rows, n);
    assert rows[..n + 1] == rows;
    EventIdsPrefix(rows, n);
    LastEventId(rows);
    var ws2 := Sweep(rows);
    if k == |ws2| - 1 && (Opens(ws, rows[n]) || ws2[k].end == rows[n].end) {
      assert EventIds(rows)[n] == k + 1;
    } else {
      EventEndAttained(rows[..n], k);
      var j :| 0 <= j < n && EventIds(rows[..n])[j] == k + 1 && rows[..n][j].end == ws[k].end;
      assert EventIds(rows)[j] == k + 1;
    }
  }

  /** An interval whose known endpoints are in order. */
  predicate Proper(start: Option<int>, end: Option<int>)
  {
    start.Some? && end.Some? ==> start.value <= end.value
  }

  /** Rows that end no earlier than they start give events that do too. */
  lemma {:induction false} SweepProper(rows: seq<Row>)
    requires forall i :: 0 <= i < |rows| ==> Proper(rows[i].start, rows[i].end)
    ensures forall k :: 0 <= k < |Sweep(rows)| ==> Proper(Sweep(rows)[k].start, Sweep(rows)[k].end)
  {
    if rows != [] {
      var n := |rows| - 1;
      SweepProper(rows[..n]);
      SweepAt(rows, n);
      assert rows[..n + 1] == rows;
    }
  }

  /** Every event with both endpoints known is emitted. */
  lemma {:induction false} EmittedComplete(landuseId: nat, ws: seq<Window>, k: nat)
    requires k < |ws| && ws[k].start.Some? && ws[k].end.Some?
    ensures exists t :: 0 <= t < |Emitted(landuseId, ws)| && Emitted(landuseId, ws)[t].eventId == k + 1
  {
    var n := |ws| - 1;
    var es := Emitted(landuseId, ws);
    if k < n {
      EmittedComplete(landuseId, ws[..n], k);
      var t :| 0 <= t < |Emitted(landuseId, ws[..n])| && Emitted(landuseId, ws[..n])[t].eventId == k + 1;
      assert es[t] == Emitted(landuseId, ws[..n])[t];
    } else {
      assert es[|es| - 1].eventId == k + 1;
    }
  }

  /** In sorted rows the events' starts are in order too. */
  lemma {:induction false} SweepStartsOrdered(rows: seq<Row>)
    requires SortedByStart(rows)
    ensures forall k, l :: 0 <= k < l < |Sweep(rows)| ==> StartLe(Sweep(rows)[k].start, Sweep(rows)[l].start)
  {
    if rows != [] {
      var n := |rows| - 1;
      var ws := Sweep(rows[..n]);
      var ws2 := Sweep(rows);
      SweepAt(rows, n);
      assert rows[..n + 1] == rows;
      SortedPrefix(rows, n);
      SweepStartsOrdered(rows[..n]);
      SweepStartsBounded(rows);
      forall k, l | 0 <= k < l < |ws2| ensures StartLe(ws2[k].start, ws2[l].start) {
        if l < |ws| {
          assert ws2[k].start == ws[k].start && ws2[l].start == ws[l].start;
        } else {
          assert ws2[l].start == rows[n].start;
        }
      }
    }
  }

  /** Separated events with ordered starts: any event with a known start begins strictly
      after every earlier event ends. */
  lemma OrderedChain(ws: seq<Window>, k: nat, l: nat)
    requires Separated(ws)
    requires forall a, b :: 0 <= a < b < |ws| ==> StartLe(ws[a].start, ws[b].start)
    requires k < l < |ws| && ws[l].start.Some?
    ensures After(ws[l].start, ws[k].end)
  {
    assert After(ws[k + 1].start, ws[k].end);
    if k + 1 < l {
      assert StartLe(ws[k + 1].start, ws[l].start);
    }
  }

  /** A parcel's events are in order and pairwise separated: each event starts strictly
      after every earlier event ends. Sorting makes this hold for any rows, also ones that
      end before they start. */
  lemma ParcelEventsDisjoint(landuseId: nat, rows: seq<Row>)
    ensures var es := ParcelEvents(landuseId, rows);
            forall s, t :: 0 <= s < t < |es| ==> es[s].end < es[t].start
  {
    var sorted := SortByStart(rows);
    SortSortsRows(rows);
    var ws := Sweep(sorted);
    SweepSeparated(sorted);
    SweepStartsOrdered(sorted);
    var es := ParcelEvents(landuseId, rows);
    forall s, t | 0 <= s < t < |es| ensures es[s].end < es[t].start {
      OrderedChain(ws, es[s].eventId - 1, es[t].eventId - 1);
    }
  }

  /** Row ids never decrease along the rows. */
  lemma EventIdsMonotone(rows: seq<Row>, i: nat, j: nat)
    requires i <= j < |rows|
    ensures EventIds(rows)[i] <= EventIds(rows)[j]
  {
    var pre := rows[..j + 1];
    assert pre[..i + 1] == rows[..i + 1];
    SweepSettles(pre, i + 1);
  }

  /** Overlapping rows share an event: in sorted rows, a later row that starts no later than
      an earlier row ends (both known) is assigned the earlier row's event. */
  lemma OverlappingRowsShareEvent(rows: seq<Row>, i: nat, j: nat)
    requires SortedByStart(rows) && i < j < |rows|
    requires rows[i].end.Some? && rows[j].start.Some? && rows[j].start.value <= rows[i].end.value
    ensures EventIds(rows)[i] == EventIds(rows)[j]
  {
    var ws := Sweep(rows);
    EventIdsMonotone(rows, i, j);
    RowCovered(rows, i);
    RowStartCovered(rows, j);
    var a, b := EventIds(rows)[i] - 1, EventIds(rows)[j] - 1;
    if a < b {
      MissingOnlyAtEnds(rows);
      assert ws[a].end.Some? && ws[b].start.Some?;
      SweepSeparated(rows);
      SweepStartsOrdered(rows);
      OrderedChain(ws, a, b);
      assert false;
    }
  }

  // ----- The imperative sweep -----

  /** What one iteration of the sweep loop establishes: absorbing row `i` gives the sweep
      of the rows up to it, and the row's event id is the number of events afterwards. */
  lemma SweepRowsStep(rows: seq<Row>, i: nat, windows: seq<Window>)
    requires i < |rows| && windows == Sweep(rows[..i])
    ensures Absorb(windows, rows[i]) == Sweep(rows[..i + 1])
    ensures EventIds(rows)[i] == |Absorb(windows, rows[i])|
  {
    SweepAt(rows, i);
  }

  /** The loop of map.py:55-68: `windows` plays `event_mapping` (entry `k + 1` is
      `windows[k]`) and `ids` collects the id assigned to each row. */
  method SweepRows(rows: seq<Row>) returns (windows: seq<Window>, ids: seq<nat>)
    ensures windows == Sweep(rows)
    ensures ids == EventIds(rows)
  {
    windows, ids := [], [];
    var eventId := 0;
    for i := 0 to |rows|
      invariant windows == Sweep(rows[..i]) && eventId == |windows|
      invariant |ids| == i && forall t :: 0 <= t < i ==> ids[t] == EventIds(rows)[t]
    {
      var row := rows[i];
      ghost var before := windows;
      SweepRowsStep(rows, i, windows);
      if eventId == 0 || After(row.start, windows[eventId - 1].end) {
        eventId := eventId + 1;
        windows := windows + [Window(row.start, row.end)];
      } else {
        var event := windows[eventId - 1];
        windows := windows[eventId - 1 := Window(event.start, LaterEnd(event.end, row.end))];
      }
      assert windows == Absorb(before, row);
      ids := ids + [eventId];
    }
    assert rows[..|rows|] == rows;
  }

  /** The loop of map.py:69-78 over one parcel's events. */
  method EmitEvents(landuseId: nat, windows: seq<Window>) returns (events: seq<Event>)
    ensures events == Emitted(landuseId, windows)
  {
    events := [];
    for k := 0 to |windows|
      invariant events == Emitted(landuseId, windows[..k])
    {
      assert windows[..k + 1][..k] == windows[..k];
      var event := windows[k];
      if event.start.Some? && event.end.Some? {
        var start, end := event.start.value, event.end.value;
        events := events + [Event(landuseId, k + 1, start, end, (end - start) / MillisPerHour)];
      }
    }
    assert windows[..|windows|] == windows;
  }

  /** One iteration of map.py:52-78: sort the parcel's rows by start, sweep them, and emit
      the events with both endpoints known. `ids` are the ids the rows are assigned, in
      sorted order. */
  method CoalesceParcel(landuseId: nat, rows: seq<Row>) returns (events: seq<Event>, ids: seq<nat>)
    ensures events == ParcelEvents(landuseId, rows)
    ensures ids == EventIds(SortByStart(rows))
  {
    var group := SortByStart(rows);
    var windows;
    windows, ids := SweepRows(group);
    events := EmitEvents(landuseId, windows);
  }

  /** map.py:51-78: `landuse_events` for every parcel, parcel `k`'s rows being `parcels[k]`. */
  method CoalesceAll(parcels: seq<seq<Row>>) returns (events: seq<Event>)
    ensures events == AllEvents(parcels)
  {
    events := [];
    for k := 0 to |parcels|
      invariant events == AllEvents(parcels[..k])
    {
      assert parcels[..k + 1][..k] == parcels[..k];
      var parcel, _ := CoalesceParcel(k, parcels[k]);
      events := events + parcel;
    }
    assert parcels[..|parcels|] == parcels;
  }

  // ----- Worked examples -----

  const H: int := MillisPerHour

  /** The sort of one more row inserts it into the sorted earlier rows. */
  lemma SortSnoc(rows: seq<Row>, r: Row)
    ensures SortByStart(rows + [r]) == InsertByStart(r, SortByStart(rows))
  {
    assert (rows + [r])[..|rows|] == rows;
  }

  /** One more window adds at most the event it describes. */
  lemma EmittedSnoc(landuseId: nat, ws: seq<Window>, w: Window)
    ensures w.start.Some? && w.end.Some? ==>
              Emitted(landuseId, ws + [w])
                == Emitted(landuseId, ws)
                   + [Event(landuseId, |ws| + 1, w.start.value, w.end.value, HoursBetween(w.start.value, w.end.value))]
    ensures w.start.None? || w.end.None? ==> Emitted(landuseId, ws + [w]) == Emitted(landuseId, ws)
  {
    assert (ws + [w])[..|ws|] == ws;
  }

  /** Overlapping outages merge into one event; a later, separate outage is a second one. */
  lemma OverlappingRowsMerge()
    ensures ParcelEvents(7, [Row(Some(5 * H), Some(15 * H)), Row(Some(20 * H), Some(30 * H)), Row(Some(0), Some(10 * H))])
            == [Event(7, 1, 0, 15 * H, 15), Event(7, 2, 20 * H, 30 * H, 10)]
  {
    OverlappingRowsSorted();
    OverlappingRowsSwept();
    OverlappingRowsEmitted();
  }

  /** The three rows of `OverlappingRowsMerge`, sorted by start. */
  lemma OverlappingRowsSorted()
    ensures SortByStart([Row(Some(5 * H), Some(15 * H)), Row(Some(20 * H), Some(30 * H)), Row(Some(0), Some(10 * H))])
            == [Row(Some(0), Some(10 * H)), Row(Some(5 * H), Some(15 * H)), Row(Some(20 * H), Some(30 * H))]
  {
    var r0, r1, r2 := Row(Some(5 * H), Some(15 * H)), Row(Some(20 * H), Some(30 * H)), Row(Some(0), Some(10 * H));
    assert SortByStart([r0]) == [r0] by {
      assert [] + [r0] == [r0];
      SortSnoc([], r0);
    }
    assert SortByStart([r0, r1]) == [r0, r1] by {
      assert [r0] + [r1] == [r0, r1];
      SortSnoc([r0], r1);
    }
    assert InsertByStart(r2, [r0]) == [r2, r0] by {
      assert [r0][..0] == [];
    }
    assert InsertByStart(r2, [r0, r1]) == [r2, r0, r1] by {
      assert [r0, r1][..1] == [r0];
    }
    assert [r0, r1] + [r2] == [r0, r1, r2];
    SortSnoc([r0, r1], r2);
  }

  /** The sorted rows of `OverlappingRowsMerge` give two windows: the first two rows merge. */
  lemma OverlappingRowsSwept()
    ensures Sweep([Row(Some(0), Some(10 * H)), Row(Some(5 * H), Some(15 * H)), Row(Some(20 * H), Some(30 * H))])
            == [Window(Some(0), Some(15 * H)), Window(Some(20 * H), Some(30 * H))]
  {
    var r0, r1, r2 := Row(Some(0), Some(10 * H)), Row(Some(5 * H), Some(15 * H)), Row(Some(20 * H), Some(30 * H));
    assert Sweep([r0]) == [Window(Some(0), Some(10 * H))] by {
      assert [] + [r0] == [r0];
      SweepSnoc([], r0);
    }
    assert Sweep([r0, r1]) == [Window(Some(0), Some(15 * H))] by {
      assert [r0] + [r1] == [r0, r1];
      SweepSnoc([r0], r1);
    }
    assert [r0, r1] + [r2] == [r0, r1, r2];
    SweepSnoc([r0, r1], r2);
  }

  /** The two windows of `OverlappingRowsMerge` become events of 15 and 10 hours. */
  lemma OverlappingRowsEmitted()
    ensures Emitted(7, [Window(Some(0), Some(15 * H)), Window(Some(20 * H), Some(30 * H))])
            == [Event(7, 1, 0, 15 * H, 15), Event(7, 2, 20 * H, 30 * H, 10)]
  {
    var w0, w1 := Window(Some(0), Some(15 * H)), Window(Some(20 * H), Some(30 * H));
    assert [] + [w0] == [w0] && [w0] + [w1] == [w0, w1];
    EmittedSnoc(7, [], w0);
    EmittedSnoc(7, [w0], w1);
    assert HoursBetween(0, 15 * H) == 15 && HoursBetween(20 * H, 30 * H) == 10;
  }

  /** An outage starting exactly when the current event ends extends it. */
  lemma TouchingRowsMerge()
    ensures ParcelEvents(3, [Row(Some(0), Some(10 * H)), Row(Some(10 * H), Some(20 * H))])
            == [Event(3, 1, 0, 20 * H, 20)]
  {
    TouchingRowsSwept();
    var w := Window(Some(0), Some(20 * H));
    assert Emitted(3, [w]) == [Event(3, 1, 0, 20 * H, 20)] by {
      assert [] + [w] == [w];
      EmittedSnoc(3, [], w);
      assert HoursBetween(0, 20 * H) == 20;
    }
  }

  /** The rows of `TouchingRowsMerge` are in order and sweep into one window. */
  lemma TouchingRowsSwept()
    ensures SortByStart([Row(Some(0), Some(10 * H)), Row(Some(10 * H), Some(20 * H))])
            == [Row(Some(0), Some(10 * H)), Row(Some(10 * H), Some(20 * H))]
    ensures Sweep([Row(Some(0), Some(10 * H)), Row(Some(10 * H), Some(20 * H))])
            == [Window(Some(0), Some(20 * H))]
  {
    var r0, r1 := Row(Some(0), Some(10 * H)), Row(Some(10 * H), Some(20 * H));
    assert [] + [r0] == [r0] && [r0] + [r1] == [r0, r1];
    assert SortByStart([r0, r1]) == [r0, r1] by {
      SortSnoc([], r0);
      SortSnoc([r0], r1);
    }
    assert Sweep([r0, r1]) == [Window(Some(0), Some(20 * H))] by {
      SweepSnoc([], r0);
      SweepSnoc([r0], r1);
    }
  }

  /** A row with a missing end leaves the event's end missing for good: every later row of
      the parcel is absorbed and nothing is emitted. */
  lemma MissingEndSwallows()
    ensures ParcelEvents(0, [Row(Some(1), None), Row(Some(5), Some(10))]) == []
  {
    MissingEndSwept();
    var w := Window(Some(1), None);
    assert Emitted(0, [w]) == [] by {
      assert [] + [w] == [w];
      EmittedSnoc(0, [], w);
    }
  }

  /** The rows of `MissingEndSwallows` are in order and sweep into one window with no end. */
  lemma MissingEndSwept()
    ensures SortByStart([Row(Some(1), None), Row(Some(5), Some(10))]) == [Row(Some(1), None), Row(Some(5), Some(10))]
    ensures Sweep([Row(Some(1), None), Row(Some(5), Some(10))]) == [Window(Some(1), None)]
  {
    var r0, r1 := Row(Some(1), None), Row(Some(5), Some(10));
    assert [] + [r0] == [r0] && [r0] + [r1] == [r0, r1];
    assert SortByStart([r0, r1]) == [r0, r1] by {
      SortSnoc([], r0);
      SortSnoc([r0], r1);
    }
    assert Sweep([r0, r1]) == [Window(Some(1), None)] by {
      SweepSnoc([], r0);
      SweepSnoc([r0], r1);
    }
  }

  /** A parcel that intersects no outage has no events. */
  lemma UnmatchedParcel(landuseId: nat)
    ensures ParcelEvents(landuseId, [Row(None, None)]) == []
  {
    assert Sweep([Row(None, None)]) == [Window(None, None)] by {
      SweepSnoc([], Row(None, None));
    }
  }
}
