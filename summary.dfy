/** The per-parcel summary of map.py:79-97: `landuse_events` is grouped by parcel, and each
    parcel with at least one event gets its total, mean and median event length in hours and
    its number of distinct events. The inner merges onto the parcel table keep only parcels
    that have a group, in parcel order. Lengths are exact: the mean and median are `real`. */
module Summary {
  import opened Wrappers
  import opened Coalesce

  /** One row of `summary_table` (the parcel's geometry and attributes are not modelled). */
  datatype ParcelSummary = ParcelSummary(landuseId: nat, totalLength: int, avgLength: real,
                                         medianLength: real, outageCount: Option<nat>)

  // ----- Arithmetic over the lengths -----

  function Sum(xs: seq<int>): int
  {
    if xs == [] then 0 else Sum(xs[..|xs| - 1]) + xs[|xs| - 1]
  }

  /** `mean()`: the sum over the count. */
  function Mean(xs: seq<int>): real
    requires xs != []
  {
    Sum(xs) as real / |xs| as real
  }

  predicate SortedInts(xs: seq<int>)
  {
    forall i, j :: 0 <= i < j < |xs| ==> xs[i] <= xs[j]
  }

  function InsertInt(x: int, xs: seq<int>): (out: seq<int>)
    ensures |out| == |xs| + 1
  {
    if xs == [] then [x]
    else if xs[|xs| - 1] <= x then xs + [x]
    else InsertInt(x, xs[..|xs| - 1]) + [xs[|xs| - 1]]
  }

  function SortInts(xs: seq<int>): (out: seq<int>)
    ensures |out| == |xs|
  {
    if xs == [] then [] else InsertInt(xs[|xs| - 1], SortInts(xs[..|xs| - 1]))
  }

  lemma {:induction false} InsertIntPermutes(x: int, xs: seq<int>)
    ensures multiset(InsertInt(x, xs)) == multiset(xs) + multiset{x}
  {
    if xs != [] {
      var init, last := xs[..|xs| - 1], xs[|xs| - 1];
      assert xs == init + [last];
      if last > x {
        InsertIntPermutes(x, init);
      }
    }
  }

  lemma {:induction false} InsertIntSorted(x: int, xs: seq<int>)
    requires SortedInts(xs)
    ensures SortedInts(InsertInt(x, xs))
  {
    if xs != [] {
      var init, last := xs[..|xs| - 1], xs[|xs| - 1];
      if last > x {
        assert SortedInts(init) by {
          forall i, j | 0 <= i < j < |init| ensures init[i] <= init[j] {
            assert init[i] == xs[i] && init[j] == xs[j];
          }
        }
        InsertIntSorted(x, init);
        InsertIntPermutes(x, init);
        var mid := InsertInt(x, init);
        var out := mid + [last];
        forall i, j | 0 <= i < j < |out| ensures out[i] <= out[j] {
          if j == |mid| {
            assert out[i] in multiset(mid);
            assert out[i] == x || out[i] in init;
          } else {
            assert out[i] == mid[i] && out[j] == mid[j];
          }
        }
      }
    }
  }

  /** The sort behind `median()` orders the lengths. */
  lemma {:induction false} SortIntsSorts(xs: seq<int>)
    ensures SortedInts(SortInts(xs))
  {
    if xs != [] {
      SortIntsSorts(xs[..|xs| - 1]);
      InsertIntSorted(xs[|xs| - 1], SortInts(xs[..|xs| - 1]));
    }
  }

  /** The sort behind `median()` is a permutation of the lengths. */
  lemma {:induction false} SortIntsPermutes(xs: seq<int>)
    ensures multiset(SortInts(xs)) == multiset(xs)
  {
    if xs != [] {
      var init := xs[..|xs| - 1];
      SortIntsPermutes(init);
      InsertIntPermutes(xs[|xs| - 1], SortInts(init));
      assert xs == init + [xs[|xs| - 1]];
    }
  }

  /** `median()`: the middle of the sorted lengths, or the mean of the two middle ones. */
  function Median(xs: seq<int>): real
    requires xs != []
  {
    var s := SortInts(xs);
    var n := |s|;
    if n % 2 == 1 then s[n / 2] as real else (s[n / 2 - 1] + s[n / 2]) as real / 2.0
  }

  /** The set of values occurring in a list. */
  function Values(ids: seq<nat>): (vs: set<nat>)
    ensures forall x :: x in vs <==> x in ids
  {
    if ids == [] then {} else Values(ids[..|ids| - 1]) + {ids[|ids| - 1]}
  }

  /** `nunique()`: the number of distinct values. */
  function CountDistinct(ids: seq<nat>): nat
  {
    |Values(ids)|
  }

  // ----- Grouping the events by parcel -----

  /** The group of parcel `id` in `landuse_events`, in order. */
  function EventsOf(events: seq<Event>, id: nat): (r: seq<Event>)
    ensures |r| <= |events|
    ensures forall e :: e in r ==> e in events && e.landuseId == id
  {
    if events == [] then []
    else
      var rest := EventsOf(events[..|events| - 1], id);
      if events[|events| - 1].landuseId == id then rest + [events[|events| - 1]] else rest
  }

  function Lengths(es: seq<Event>): (ls: seq<int>)
    ensures |ls| == |es|
    ensures forall t :: 0 <= t < |es| ==> ls[t] == es[t].length
  {
    if es == [] then [] else Lengths(es[..|es| - 1]) + [es[|es| - 1].length]
  }

  function EventIdsOf(es: seq<Event>): (ids: seq<nat>)
    ensures |ids| == |es|
    ensures forall t :: 0 <= t < |es| ==> ids[t] == es[t].eventId
  {
    if es == [] then [] else EventIdsOf(es[..|es| - 1]) + [es[|es| - 1].eventId]
  }

  /** map.py:96: a count of zero is replaced by a missing value. */
  function CountOrMissing(c: nat): (r: Option<nat>)
    ensures r.None? <==> c == 0
    ensures r.Some? ==> r.value == c
  {
    if c == 0 then None else Some(c)
  }

  /** The summary row of a parcel with events `es`. */
  function Summarize(id: nat, es: seq<Event>): (s: ParcelSummary)
    requires es != []
    ensures s.landuseId == id
  {
    var ls := Lengths(es);
    ParcelSummary(id, Sum(ls), Mean(ls), Median(ls), CountOrMissing(CountDistinct(EventIdsOf(es))))
  }

  /** The parcels among `0 .. parcelCount - 1` that have a group in `landuse_events`, in
      parcel order: the keys that survive the inner merges with the parcel table. */
  function GroupedParcels(parcelCount: nat, events: seq<Event>): (ids: seq<nat>)
    ensures forall t :: 0 <= t < |ids| ==> ids[t] < parcelCount && EventsOf(events, ids[t]) != []
  {
    if parcelCount == 0 then []
    else
      var rest := GroupedParcels(parcelCount - 1, events);
      if EventsOf(events, parcelCount - 1) == [] then rest else rest + [parcelCount - 1]
  }

  /** `summary_table` for parcels `0 .. parcelCount - 1`: the summary of each grouped parcel. */
  function SummaryTable(parcelCount: nat, events: seq<Event>): (rows: seq<ParcelSummary>)
    ensures |rows| == |GroupedParcels(parcelCount, events)|
  {
    var ids := GroupedParcels(parcelCount, events);
    seq(|ids|, t requires 0 <= t < |ids| => Summarize(ids[t], EventsOf(events, ids[t])))
  }

  /** map.py:79-97 as written: with no event at all, `pd.DataFrame([])` has no `landuse_id`
      column and `groupby('landuse_id')` raises `KeyError`. */
  function SummaryTableAsWritten(parcelCount: nat, events: seq<Event>): (r: Result<seq<ParcelSummary>, string>)
    ensures r.Failure? <==> events == []
    ensures r.Success? ==> r.value == SummaryTable(parcelCount, events)
  {
    if events == [] then Failure("KeyError: 'landuse_id'") else Success(SummaryTable(parcelCount, events))
  }

  // ----- Properties of one summary row -----

  lemma {:induction false} SumBounds(xs: seq<int>, lo: int, hi: int)
    requires forall t :: 0 <= t < |xs| ==> lo <= xs[t] <= hi
    ensures |xs| * lo <= Sum(xs) <= |xs| * hi
  {
    if xs != [] {
      var n := |xs| - 1;
      SumBounds(xs[..n], lo, hi);
      assert |xs| * lo == n * lo + lo && |xs| * hi == n * hi + hi;
    }
  }

  /** Dividing a total by a positive count: bounds on the total scaled by the count become
      bounds on the quotient, and the quotient times the count is the total. */
  lemma DivBounds(total: int, n: int, lo: int, hi: int)
    requires n > 0 && n * lo <= total <= n * hi
    ensures lo as real <= total as real / n as real <= hi as real
    ensures total as real / n as real * n as real == total as real
  {
    var m := total as real / n as real;
    assert m * n as real == total as real;
    RealProduct(n, lo);
    RealProduct(n, hi);
    Distributes(m, lo as real, n as real);
    PositiveFactor(m - lo as real, n as real);
    Distributes(hi as real, m, n as real);
    PositiveFactor(hi as real - m, n as real);
  }

  lemma RealProduct(a: int, b: int)
    ensures (a * b) as real == (a as real) * (b as real)
  {
  }

  lemma Distributes(a: real, b: real, c: real)
    ensures (a - b) * c == a * c - c * b
  {
  }

  lemma PositiveFactor(x: real, n: real)
    requires n > 0.0 && x * n >= 0.0
    ensures x >= 0.0
  {
  }

  /** Lengths between `lo` and `hi` give a mean between them; the mean times the count is
      the total. */
  lemma MeanBounds(xs: seq<int>, lo: int, hi: int)
    requires xs != []
    requires forall t :: 0 <= t < |xs| ==> lo <= xs[t] <= hi
    ensures lo as real <= Mean(xs) <= hi as real
    ensures Mean(xs) * |xs| as real == Sum(xs) as real
  {
    SumBounds(xs, lo, hi);
    DivBounds(Sum(xs), |xs|, lo, hi);
  }

  /** Lengths between `lo` and `hi` give a median between them. */
  lemma MedianBounds(xs: seq<int>, lo: int, hi: int)
    requires xs != []
    requires forall t :: 0 <= t < |xs| ==> lo <= xs[t] <= hi
    ensures lo as real <= Median(xs) <= hi as real
  {
    var s := SortInts(xs);
    SortIntsPermutes(xs);
    forall t | 0 <= t < |s| ensures lo <= s[t] <= hi {
      assert s[t] in multiset(xs);
      var u :| 0 <= u < |xs| && xs[u] == s[t];
    }
    if |s| % 2 == 0 {
      assert lo <= s[|s| / 2 - 1] <= hi && lo <= s[|s| / 2] <= hi;
    }
  }

  /** A parcel's row: the total, the mean and the median lie between the shortest and the
      longest event (the total scaled by the count). */
  lemma SummarizeLengths(id: nat, es: seq<Event>, lo: int, hi: int)
    requires es != []
    requires forall t :: 0 <= t < |es| ==> lo <= es[t].length <= hi
    ensures |es| * lo <= Summarize(id, es).totalLength <= |es| * hi
    ensures lo as real <= Summarize(id, es).avgLength <= hi as real
    ensures lo as real <= Summarize(id, es).medianLength <= hi as real
  {
    var ls := Lengths(es);
    var row := Summarize(id, es);
    assert row.totalLength == Sum(ls) && row.avgLength == Mean(ls) && row.medianLength == Median(ls);
    assert |ls| == |es| && forall t :: 0 <= t < |ls| ==> lo <= ls[t] <= hi;
    assert |es| * lo <= Sum(ls) <= |es| * hi by {
      SumBounds(ls, lo, hi);
    }
    assert lo as real <= Mean(ls) <= hi as real by {
      MeanBounds(ls, lo, hi);
    }
    assert lo as real <= Median(ls) <= hi as real by {
      MedianBounds(ls, lo, hi);
    }
  }

  /** A parcel's count of distinct events is never missing and at most its number of rows;
      when its event ids are distinct, as the sweep makes them, it is the number of rows. */
  lemma SummarizeCount(id: nat, es: seq<Event>)
    requires es != []
    ensures Summarize(id, es).outageCount.Some?
    ensures 1 <= Summarize(id, es).outageCount.value <= |es|
    ensures (forall s, t :: 0 <= s < t < |es| ==> es[s].eventId != es[t].eventId) ==>
              Summarize(id, es).outageCount == Some(|es|)
  {
    var ids := EventIdsOf(es);
    assert Summarize(id, es).outageCount == CountOrMissing(CountDistinct(ids));
    assert 1 <= CountDistinct(ids) <= |es| by {
      assert ids[0] in Values(ids);
      DistinctCount(ids);
    }
    if forall s, t :: 0 <= s < t < |es| ==> es[s].eventId != es[t].eventId {
      DistinctCountExact(ids);
    }
  }

  /** A list has at most as many distinct values as elements. */
  lemma {:induction false} DistinctCount(ids: seq<nat>)
    ensures CountDistinct(ids) <= |ids|
  {
    if ids != [] {
      var init := ids[..|ids| - 1];
      DistinctCount(init);
      if ids[|ids| - 1] in Values(init) {
        assert Values(ids) == Values(init);
      }
    }
  }

  /** Without repeats, the number of distinct values is the length. */
  lemma {:induction false} DistinctCountExact(ids: seq<nat>)
    requires forall s, t :: 0 <= s < t < |ids| ==> ids[s] != ids[t]
    ensures CountDistinct(ids) == |ids|
  {
    if ids != [] {
      var init := ids[..|ids| - 1];
      DistinctCountExact(init);
      assert ids[|ids| - 1] !in init;
    }
  }

  // ----- Properties of the table -----

  /** A parcel is grouped exactly when it is in range and has events. */
  lemma {:induction false} GroupedExactly(parcelCount: nat, events: seq<Event>)
    ensures forall k: nat :: k in GroupedParcels(parcelCount, events) <==> k < parcelCount && EventsOf(events, k) != []
  {
    if parcelCount > 0 {
      GroupedExactly(parcelCount - 1, events);
    }
  }

  predicate Increasing(xs: seq<nat>)
  {
    forall s, t :: 0 <= s < t < |xs| ==> xs[s] < xs[t]
  }

  /** The grouped parcels come in strictly increasing order, without repeats. */
  lemma {:induction false} GroupedOrdered(parcelCount: nat, events: seq<Event>)
    ensures Increasing(GroupedParcels(parcelCount, events))
  {
    if parcelCount > 0 {
      var n := parcelCount - 1;
      GroupedOrdered(n, events);
      var rest := GroupedParcels(n, events);
      var ids := GroupedParcels(parcelCount, events);
      if EventsOf(events, n) != [] {
        assert ids == rest + [n];
        forall s, t | 0 <= s < t < |ids| ensures ids[s] < ids[t] {
          assert ids[s] == rest[s] && rest[s] < n;
          if t < |rest| {
            assert ids[t] == rest[t];
          }
        }
      } else {
        assert ids == rest;
      }
    }
  }

  /** Some row of `rows` is parcel `k`'s. */
  predicate HasRow(rows: seq<ParcelSummary>, k: nat)
  {
    exists t :: 0 <= t < |rows| && rows[t].landuseId == k
  }

  /** Each row is the summary of a parcel in range that has events. */
  predicate RowsSummarize(rows: seq<ParcelSummary>, parcelCount: nat, events: seq<Event>)
  {
    forall t :: 0 <= t < |rows| ==>
      && rows[t].landuseId < parcelCount
      && EventsOf(events, rows[t].landuseId) != []
      && rows[t] == Summarize(rows[t].landuseId, EventsOf(events, rows[t].landuseId))
  }

  /** The rows are in strictly increasing parcel order, so no parcel has two. */
  predicate RowsOrdered(rows: seq<ParcelSummary>)
  {
    forall s, t :: 0 <= s < t < |rows| ==> rows[s].landuseId < rows[t].landuseId
  }

  /** Every parcel in range that has events has a row. */
  predicate RowsComplete(rows: seq<ParcelSummary>, parcelCount: nat, events: seq<Event>)
  {
    forall k: nat :: k < parcelCount && EventsOf(events, k) != [] ==> HasRow(rows, k)
  }

  /** The table has exactly one row per parcel with events, in parcel order, and each row is
      the summary of that parcel's events. */
  lemma SummaryTableRows(parcelCount: nat, events: seq<Event>)
    ensures RowsSummarize(SummaryTable(parcelCount, events), parcelCount, events)
    ensures RowsOrdered(SummaryTable(parcelCount, events))
    ensures RowsComplete(SummaryTable(parcelCount, events), parcelCount, events)
  {
    var ids := GroupedParcels(parcelCount, events);
    var rows := SummaryTable(parcelCount, events);
    assert forall t :: 0 <= t < |rows| ==> rows[t].landuseId == ids[t];
    GroupedOrdered(parcelCount, events);
    forall s, t | 0 <= s < t < |rows| ensures rows[s].landuseId < rows[t].landuseId {
      assert rows[s].landuseId == ids[s] && rows[t].landuseId == ids[t];
    }
    GroupedExactly(parcelCount, events);
    forall k: nat | k < parcelCount && EventsOf(events, k) != [] ensures HasRow(rows, k) {
      var t :| 0 <= t < |ids| && ids[t] == k;
      assert rows[t].landuseId == k;
    }
  }

  /** Parcels without events have no row. */
  lemma NoRowWithoutEvents(parcelCount: nat, events: seq<Event>, k: nat)
    requires EventsOf(events, k) == []
    ensures !HasRow(SummaryTable(parcelCount, events), k)
  {
    SummaryTableRows(parcelCount, events);
  }

  /** The corrected table is empty, rather than an error, when there are no events. */
  lemma NoEventsEmptyTable(parcelCount: nat)
    ensures SummaryTable(parcelCount, []) == []
  {
    NoEventsBelow(parcelCount, []);
  }

  /** No parcel below `n` has events: nothing is grouped. */
  lemma {:induction false} NoEventsBelow(n: nat, events: seq<Event>)
    requires forall k: nat :: k < n ==> EventsOf(events, k) == []
    ensures GroupedParcels(n, events) == []
  {
    if n > 0 {
      NoEventsBelow(n - 1, events);
    }
  }

  /** Two events of 10 and 6 hours on parcel 4 of five: one row, with total 16, mean 8,
      median 8 and two events. */
  lemma TwoEventExample()
    ensures SummaryTable(5, [Event(4, 1, 0, 10 * H, 10), Event(4, 2, 20 * H, 26 * H, 6)])
            == [ParcelSummary(4, 16, 8.0, 8.0, Some(2))]
  {
    var e1, e2 := Event(4, 1, 0, 10 * H, 10), Event(4, 2, 20 * H, 26 * H, 6);
    var events := [e1, e2];
    assert events[..1] == [e1] && [e1][..0] == [];
    assert EventsOf(events, 4) == events by {
      assert [] + [e1] == [e1] && [e1] + [e2] == events;
    }
    forall k: nat | k < 4 ensures EventsOf(events, k) == [] {
    }
    NoEventsBelow(4, events);
    assert GroupedParcels(5, events) == [4] by {
      assert [] + [4] == [4];
    }
    TwoEventSummary();
  }

  /** The row of `TwoEventExample`'s parcel. */
  lemma TwoEventSummary()
    ensures Summarize(4, [Event(4, 1, 0, 10 * H, 10), Event(4, 2, 20 * H, 26 * H, 6)])
            == ParcelSummary(4, 16, 8.0, 8.0, Some(2))
  {
    var e1, e2 := Event(4, 1, 0, 10 * H, 10), Event(4, 2, 20 * H, 26 * H, 6);
    var events := [e1, e2];
    assert Lengths(events) == [10, 6] by {
      assert events[..1] == [e1] && [e1][..0] == [];
      assert [] + [10] == [10] && [10] + [6] == [10, 6];
    }
    assert Sum([10, 6]) == 16 && Mean([10, 6]) == 8.0 by {
      assert [10, 6][..1] == [10] && [10][..0] == [];
    }
    assert Median([10, 6]) == 8.0 by {
      TwoLengthsSorted();
    }
    TwoEventCount();
  }

  lemma TwoEventCount()
    ensures CountDistinct(EventIdsOf([Event(4, 1, 0, 10 * H, 10), Event(4, 2, 20 * H, 26 * H, 6)])) == 2
  {
    var e1, e2 := Event(4, 1, 0, 10 * H, 10), Event(4, 2, 20 * H, 26 * H, 6);
    assert [e1, e2][..1] == [e1] && [e1][..0] == [];
    assert [] + [1] == [1] && [1] + [2] == [1, 2];
    assert EventIdsOf([e1, e2]) == [1, 2];
    assert Values([1, 2]) == {1, 2};
  }

  lemma TwoLengthsSorted()
    ensures SortInts([10, 6]) == [6, 10]
  {
    assert [10, 6][..1] == [10] && [10][..0] == [];
    assert SortInts([10]) == [10];
    assert InsertInt(6, [10]) == [6, 10] by {
      assert [] + [6] == [6] && [6] + [10] == [6, 10];
    }
  }

  // ----- From the joined rows to the table -----

  lemma {:induction false} EventsOfAppend(a: seq<Event>, b: seq<Event>, id: nat)
    ensures EventsOf(a + b, id) == EventsOf(a, id) + EventsOf(b, id)
  {
    if b != [] {
      var init := b[..|b| - 1];
      EventsOfAppend(a, init, id);
      assert (a + b)[..|a + b| - 1] == a + init;
    } else {
      assert a + b == a;
    }
  }

  /** Events all of parcel `id` form its whole group; events all of other parcels, none. */
  lemma {:induction false} EventsOfUniform(es: seq<Event>, landuseId: nat, id: nat)
    requires forall t :: 0 <= t < |es| ==> es[t].landuseId == landuseId
    ensures EventsOf(es, id) == if landuseId == id then es else []
  {
    if es != [] {
      var init := es[..|es| - 1];
      var last := es[|es| - 1];
      assert forall t :: 0 <= t < |init| ==> init[t] == es[t];
      EventsOfUniform(init, landuseId, id);
      assert last.landuseId == landuseId;
      if landuseId == id {
        assert EventsOf(es, id) == EventsOf(init, id) + [last];
        assert es == init + [last];
      } else {
        assert EventsOf(es, id) == EventsOf(init, id);
      }
    }
  }

  /** The group of parcel `k` in `landuse_events` is exactly the events the sweep made for
      parcel `k`'s rows. */
  lemma {:induction false} EventsOfAll(parcels: seq<seq<Row>>, k: nat)
    ensures EventsOf(AllEvents(parcels), k) == if k < |parcels| then ParcelEvents(k, parcels[k]) else []
  {
    if parcels != [] {
      var n := |parcels| - 1;
      var init := parcels[..n];
      EventsOfAll(init, k);
      var mine := ParcelEvents(n, parcels[n]);
      EventsOfAppend(AllEvents(init), mine, k);
      EventsOfUniform(mine, n, k);
      if k < n {
        assert init[k] == parcels[k];
      }
    }
  }

  /** The whole of map.py:51-97 for parcels `0 .. |parcels| - 1`: parcel `k` has a row exactly
      when the sweep gives it an event, that row is the summary of those events, and its count
      is the number of those events, since their ids are distinct. */
  lemma PipelineRow(parcels: seq<seq<Row>>, k: nat)
    requires k < |parcels|
    ensures HasRow(SummaryTable(|parcels|, AllEvents(parcels)), k) <==> ParcelEvents(k, parcels[k]) != []
    ensures forall t :: 0 <= t < |SummaryTable(|parcels|, AllEvents(parcels))| &&
                        SummaryTable(|parcels|, AllEvents(parcels))[t].landuseId == k ==>
                          SummaryTable(|parcels|, AllEvents(parcels))[t] == Summarize(k, ParcelEvents(k, parcels[k]))
    ensures ParcelEvents(k, parcels[k]) != [] ==>
              Summarize(k, ParcelEvents(k, parcels[k])).outageCount == Some(|ParcelEvents(k, parcels[k])|)
  {
    var events := AllEvents(parcels);
    var es := ParcelEvents(k, parcels[k]);
    EventsOfAll(parcels, k);
    SummaryTableRows(|parcels|, events);
    if es != [] {
      SummarizeCount(k, es);
      assert forall s, t :: 0 <= s < t < |es| ==> es[s].eventId != es[t].eventId;
    } else {
      NoRowWithoutEvents(|parcels|, events, k);
    }
  }

  /** The failure of map.py:79 as written: one parcel that intersects no outage, so the join
      leaves it one row with no times, gives no events and the groupby raises; the corrected
      table for the same input is empty. */
  lemma UnmatchedParcelsFail()
    ensures SummaryTableAsWritten(1, AllEvents([[Row(None, None)]])).Failure?
    ensures SummaryTable(1, AllEvents([[Row(None, None)]])) == []
  {
    var parcels := [[Row(None, None)]];
    UnmatchedParcel(0);
    assert parcels[..0] == [];
    assert AllEvents(parcels) == [];
    NoEventsEmptyTable(1);
  }
}
