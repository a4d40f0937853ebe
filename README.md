# Outage pipeline: sharded ingest, event coalescing and parcel summaries

This project is a Dafny model of the two batch algorithms at the centre of a small
power-outage statistics pipeline.

**Ingest (`fetch.py`, `merge`).** A run receives a batch of GeoJSON outage features and a
timestamp `ts`, in epoch milliseconds. Each feature is normalised:

- a feature without a `JOB_ID` or an `OFF_DTTM` is skipped;
- an accepted feature is stamped with `ON_DTTM = ts` and `OFF_HOURS = (ts - OFF_DTTM) // 3600000`;
- its `id` becomes its `JOB_ID`.

The accepted features are grouped by the shard key `job_id[2:8]`. Each group is then
overlaid onto the shard file `root/yy/mm/dd/jobs.json`, which is a JSON object from job id
to feature. The newest record for a job id wins. The model's store maps each shard file,
named by its three directory parts, to such a mapping. `Fetch.ShardStore` is the store as a
class, and its `Merge` method has both loops of the source.

**Analysis (`map.py`).**

1. The loader reads every shard file in sorted path order and concatenates the files'
   values into one feature list.
2. Outages are joined to land parcels. Each parcel's rows are sorted by start and swept
   once, which coalesces overlapping outages into numbered events. A row opens a new event
   when it starts strictly after the current event's end. Otherwise it extends the
   event's end to the larger of the two ends.
3. Events with both endpoints known are emitted with their length in whole hours.
4. The events are grouped per parcel into total, mean and median length and the number of
   distinct events. Mean and median are exact `real`s.

Missing values (pandas NaN) are `Option` values, with Python's semantics:

- `a > b` is false when either side is missing;
- `max(cur, new)` keeps `cur` unless `new > cur`, so a missing current end absorbs every
  later row of the parcel;
- `sort_values` puts missing starts last.

Python's `//` with a positive divisor is floor division. This is what Dafny's Euclidean `/`
computes (`Hours.HoursBetween`).

Files:

- `wrappers.dfy`: `Option` and `Result`.
- `hours.dfy`: the millisecond-to-hour conversion.
- `fetch.dfy`: normalisation, shard keys, grouping, the overlay, and the `ShardStore` class.
- `loader.dfy`: the shard-flattening loader.
- `coalesce.dfy`: sorting, the sweep, event ids and emission.
- `summary.dfy`: the per-parcel aggregation and the end-to-end lemmas.

The inner merges at map.py:85-97 drop every parcel without events from the summary table,
so the replacement of a zero count by a missing value at map.py:96 never applies.
`Summary.NoRowWithoutEvents` and `Summary.PipelineRow` state this behaviour.

## Model

| member | source | states |
|---|---|---|
| Hours.HoursBetween | fetch.py:93 | the result is the floor of the elapsed milliseconds over 3600000: `h*3600000 <= to-from < (h+1)*3600000`, non-negative when `to >= from` |
| Fetch.Slice | fetch.py:98 | Python slicing with clamped bounds: the result's length is `min(j, len(s)) - i`, or 0 when the range is empty, and its characters are those of `s` from `i` |
| Fetch.ShardKey | fetch.py:98 | the key has at most six characters, is empty for ids of at most two characters, and is the id's characters from position 2 on |
| Fetch.ShardPathOf | fetch.py:105-106 | the parts are `key[0:2]`, `key[2:4]` and `key[4:6]` with Python's clamping: their exact lengths and their characters |
| Fetch.Normalise | fetch.py:84-96 | a feature is accepted exactly when JOB_ID is present and non-empty and OFF_DTTM is present and non-zero; an accepted feature has id = JOB_ID, ON_DTTM = ts, OFF_HOURS the floor of the elapsed hours, and its other properties and geometry unchanged |
| Fetch.Accepted | fetch.py:83-96 | the accepted features are no more than the batch and all normalised |
| Fetch.OnKey | fetch.py:98-102 | a key's group holds only features of the batch with that key |
| Fetch.OnPath | fetch.py:104-106 | a file's features are features of the batch whose job id belongs in that file |
| Fetch.Keyed | fetch.py:112 | the dict comprehension has every feature's id as a key, and each key maps to a feature of the list carrying that id |
| Fetch.ShardPathSpellsKey | fetch.py:105-106 | for a key of at most six characters, year + month + day spells the key |
| Fetch.ShardPathInjective | fetch.py:105-106 | distinct keys of at most six characters go to distinct shard files |
| Fetch.JobPath | fetch.py:98-106 | the reference definition of a job id's shard file, `key[0:2]/key[2:4]/key[4:6]` of `key = job_id[2:8]`; its properties are stated by Fetch.JobPathOfWellFormedId and Fetch.SameDateSameShard |
| Fetch.JobPathOfWellFormedId | fetch.py:98-106 | for a job id of at least eight characters the file is `id[2:4]/id[4:6]/id[6:8]` |
| Fetch.SameDateSameShard | fetch.py:98-106 | the shard file depends only on characters 2..8 of the job id |
| Fetch.OnKeyIsOnPath | fetch.py:98-106 | grouping by key and grouping by shard file give the same features |
| Fetch.AcceptedAppend | fetch.py:83-96 | normalising the batch works feature by feature: it distributes over concatenation |
| Fetch.Merged | fetch.py:79-114 | the reference definition of the store after `merge`: the batch's accepted features overlaid on the store; its properties are stated by Fetch.MergeStoresLatest, Fetch.MergeKeepsUnrelated, Fetch.MergeLeavesOtherShards, Fetch.MergeIdempotent and Fetch.MergePreservesWellFormed, and Fetch.ShardStore.Merge is proved equal to it |
| Fetch.Overlay | fetch.py:104-114 | the reference definition of the second loop: each touched file becomes its old contents updated with the dict of its features; its properties are stated by Fetch.OverlayIdempotent, Fetch.OnPathLastWins and Fetch.WriteAllShards |
| Fetch.OnPathNotTouched | fetch.py:104-114 | a file that no accepted feature belongs to receives nothing |
| Fetch.KeyedLastWins | fetch.py:112 | in the dict comprehension, the last feature with a given id is the one stored |
| Fetch.AcceptedIdsFromBatch | fetch.py:85-95 | an id that is the JOB_ID of no accepted raw feature is the id of no accepted feature |
| Fetch.MergeStoresLatest | fetch.py:79-114 | within one batch the last accepted feature with a given JOB_ID is what the merged store holds, in its own file under that id; later skipped features with that JOB_ID do not matter |
| Fetch.LaterSkippedDuplicate | fetch.py:85-112 | an accepted feature followed by a skipped one with the same JOB_ID is what the merged store holds |
| Fetch.OnPathLastWins | fetch.py:104-112 | among one file's features, the last with a given id is what that file stores under it |
| Fetch.MergeKeepsUnrelated | fetch.py:108-112 | a stored job id that no accepted feature of the batch carries keeps its stored feature |
| Fetch.MergeLeavesOtherShards | fetch.py:104-114 | a file no accepted feature belongs to exists afterwards exactly when it existed before, with unchanged contents |
| Fetch.SkippedFeatureIgnored | fetch.py:85-90 | removing a skipped feature from the batch does not change the resulting store |
| Fetch.MergeIdempotent | fetch.py:112-114 | merging the same batch with the same timestamp a second time leaves the store as after the first merge |
| Fetch.OverlayIdempotent | fetch.py:112 | overlaying the same accepted features twice equals overlaying them once |
| Fetch.LaterRunSupersedes | fetch.py:112 | a later run's record for a job id replaces the earlier run's record |
| Fetch.MergePreservesWellFormed | fetch.py:95-112 | merging keeps every stored feature normalised, in the file of its own id, and under that id |
| Fetch.IncomingWellFormed | fetch.py:95-112 | a feature the batch writes into a file under an id is normalised, carries that id, and belongs in that file |
| Fetch.OnKeyHolds | fetch.py:98-102 | every accepted feature is in the group of its own key |
| Fetch.GroupKeyShort | fetch.py:98 | the key of a non-empty group has at most six characters |
| Fetch.GroupByShard | fetch.py:82-102 | the first loop yields a partition: each listed key once, no empty group, and each key's group exactly the accepted features with that key, in input order |
| Fetch.IndexById | fetch.py:112 | the comprehension built one feature at a time equals the keyed map of the list |
| Fetch.GroupsCoverTouched | fetch.py:98-106 | the files of the grouped keys are exactly the files the accepted features belong to |
| Fetch.WriteAllShards | fetch.py:104-114 | rewriting the file of every grouped key gives the merged store |
| Fetch.NextPathFresh | fetch.py:104-106 | the next key's file was not written for an earlier key |
| Fetch.WriteShardStep | fetch.py:105-112 | one iteration of the second loop overlays the key's group onto the file as read from the original store |
| Fetch.ShardStore.Merge | fetch.py:79-114 | the new store is the old one with each touched file overlaid with the batch's features for it, and a well-formed store stays well formed |
| Loader.ShardValues | map.py:23 | `data.values()` lists every stored feature of the file exactly once, each with the key it is stored under |
| Loader.LoadStep | map.py:20-23 | appending the next file's values keeps the loader's invariant |
| Loader.LoadFeatures | map.py:19-23 | every loaded feature is a stored feature; every stored feature is loaded exactly once; the files come in listing order |
| Loader.LoadedIdsDistinct | map.py:19-23 | from a well-formed store the loaded features carry distinct ids, each the id it was stored under |
| Coalesce.LaterEnd | map.py:67 | `max(cur, new)`: returns one of the two; a missing current end stays missing; a known one only grows and reaches a known new end |
| Coalesce.InsertByStart | map.py:53 | inserting a row adds one row; that it keeps sorted rows sorted and adds exactly that row is stated by Coalesce.InsertSorted |
| Coalesce.SortByStart | map.py:53 | the sort keeps the number of rows; that it orders them by start and permutes them is stated by Coalesce.SortSortsRows and Coalesce.SortPermutesRows |
| Coalesce.InsertSorted | map.py:53 | inserting a row into sorted rows keeps them sorted and adds exactly that row |
| Coalesce.SortSortsRows | map.py:53 | the rows come out ordered by start, with missing starts last |
| Coalesce.SortPermutesRows | map.py:53 | sorting is a permutation of the parcel's rows |
| Coalesce.Absorb | map.py:59-67 | a row opens a new event exactly when there is none or it starts strictly after the current end; otherwise only the current event changes, keeping its start and taking the larger end |
| Coalesce.Sweep | map.py:57-67 | `event_mapping` after the loop: no more events than rows, and at least one for a non-empty parcel; its properties are stated by Coalesce.SweepSeparated, Coalesce.MissingOnlyAtEnds, Coalesce.SweepSettles, Coalesce.RowCovered and Coalesce.SweepStartsOrdered, and Coalesce.SweepRows is proved equal to it |
| Coalesce.EventIds | map.py:68 | one event id per row; their properties are stated by Coalesce.EventIdsStep, Coalesce.LastEventId, Coalesce.EventIdsCover, Coalesce.EventIdsMonotone and Coalesce.OverlappingRowsShareEvent |
| Coalesce.Emitted | map.py:69-78 | every emitted event is a window with both endpoints known, numbered by its window, with length the floor of its hours; event ids strictly increase |
| Coalesce.ParcelEvents | map.py:52-78 | the reference definition of one parcel's events: sort, sweep, emit; its properties are stated by Coalesce.ParcelEventsDisjoint, Coalesce.CoalesceParcel and Coalesce.OverlappingRowsMerge |
| Coalesce.AllEvents | map.py:51-78 | every event belongs to one of the parcels |
| Coalesce.EventIdsStep | map.py:55-68 | the first row gets id 1, and each later row gets the previous id plus one exactly when it opens an event |
| Coalesce.LastEventId | map.py:68 | the last row's id is the number of events |
| Coalesce.EventIdsCover | map.py:55-68 | every row's id is in 1..k, and every id in 1..k is assigned to some row |
| Coalesce.SweepSeparated | map.py:59 | each event starts strictly after the end of the event before it |
| Coalesce.MissingOnlyAtEnds | map.py:59-67 | only the last event can lack an end, and only the first can lack a start |
| Coalesce.SweepSettles | map.py:57-67 | later rows leave the earlier events as they are and only extend the end of the last one |
| Coalesce.EventIdsPrefix | map.py:68 | a row's id does not depend on the rows after it |
| Coalesce.EventStartsAtOpener | map.py:60-64 | an event's start is the start of the row that opened it |
| Coalesce.SweepStartsBounded | map.py:53-64 | in sorted rows no event starts after the last row |
| Coalesce.RowCovered | map.py:59-68 | the event a row is assigned to ends no earlier than the row |
| Coalesce.RowStartCovered | map.py:53-68 | in sorted rows, the event a row is assigned to starts no later than the row |
| Coalesce.EventEndAttained | map.py:67-68 | an event's end is the end of one of the rows assigned to it |
| Coalesce.SweepProper | map.py:59-67 | when no row ends before it starts, no event does either |
| Coalesce.EmittedComplete | map.py:69-72 | every event with both endpoints known is emitted |
| Coalesce.SweepStartsOrdered | map.py:53-64 | in sorted rows the events' starts are in order |
| Coalesce.OrderedChain | map.py:59 | with separated events and ordered starts, an event with a known start begins strictly after every earlier event ends |
| Coalesce.ParcelEventsDisjoint | map.py:53-78 | for any rows, also ones ending before they start, a parcel's emitted events are strictly ordered and gapped: each ends before every later one starts |
| Coalesce.EventIdsMonotone | map.py:55-68 | row ids never decrease along the sorted rows |
| Coalesce.OverlappingRowsShareEvent | map.py:53-68 | in sorted rows, a later row starting no later than an earlier row ends (both known) gets the earlier row's event id |
| Coalesce.SweepRows | map.py:55-68 | the loop computes the sweep's events and assigns each row its event id |
| Coalesce.EmitEvents | map.py:69-78 | the loop emits exactly the events with both endpoints known |
| Coalesce.CoalesceParcel | map.py:52-78 | one parcel: sort, sweep and emit; the ids are those of the sorted rows |
| Coalesce.CoalesceAll | map.py:51-78 | the parcels in landuse-id order give the concatenation of their events |
| Coalesce.OverlappingRowsMerge | map.py:53-78 | rows 5-15h, 20-30h and 0-10h give the events 0-15h (15 hours) and 20-30h (10 hours) |
| Coalesce.TouchingRowsMerge | map.py:59-67 | a row starting exactly at the current end extends the event instead of opening one |
| Coalesce.MissingEndSwallows | map.py:67-71 | an event with a missing end swallows the later rows and is not emitted |
| Coalesce.UnmatchedParcel | map.py:59-71 | the single empty row an unmatched parcel gets from the left join produces no event |
| Summary.Sum | map.py:83 | the reference definition of `sum()`; its bounds are stated by Summary.SumBounds |
| Summary.Mean | map.py:87 | the reference definition of `mean()`, the sum over the count as an exact real; its bounds and the identity mean × count = total are stated by Summary.MeanBounds |
| Summary.SortInts | map.py:91 | sorting the lengths keeps their number; that it orders and permutes them is stated by Summary.SortIntsSorts and Summary.SortIntsPermutes |
| Summary.Median | map.py:91 | the reference definition of `median()`: the middle value, or the mean of the two middle values, of the sorted lengths; its bounds are stated by Summary.MedianBounds |
| Summary.CountDistinct | map.py:95 | the reference definition of `nunique()`, the number of distinct ids; its properties are stated by Summary.DistinctCount and Summary.DistinctCountExact |
| Summary.SortIntsSorts | map.py:91 | the lengths sorted for the median are in order |
| Summary.SortIntsPermutes | map.py:91 | sorting the lengths is a permutation |
| Summary.Values | map.py:95 | the set of event ids is exactly the ids occurring in the group |
| Summary.EventsOf | map.py:79 | a parcel's group holds only events of that parcel |
| Summary.CountOrMissing | map.py:96 | a count of 0 becomes missing, and any other count is kept |
| Summary.GroupedParcels | map.py:79 | only parcels with at least one event have a group |
| Summary.SummaryTable | map.py:79-97 | there is one row for each grouped parcel |
| Summary.SummaryTableAsWritten | map.py:79 | the source's table error: the groupby fails exactly when no event was emitted, and otherwise gives the summary table |
| Summary.SumBounds | map.py:83 | a total of values between `lo` and `hi` lies between `n*lo` and `n*hi` |
| Summary.MeanBounds | map.py:87 | when every value lies between `lo` and `hi`, so does the mean; mean × count is the total |
| Summary.MedianBounds | map.py:91 | when every value lies between `lo` and `hi`, so does the median |
| Summary.Summarize | map.py:83-96 | a parcel's summary row carries its landuse id; its metrics are stated by Summary.SummarizeLengths, Summary.SummarizeCount and Summary.TwoEventExample |
| Summary.SummarizeLengths | map.py:83-93 | a parcel's total, mean and median length lie within the bounds of its event lengths |
| Summary.SummarizeCount | map.py:95-96 | a parcel's outage count is known, between 1 and its number of events, and equal to it when the event ids are distinct |
| Summary.DistinctCount | map.py:95 | `nunique` is at most the number of ids |
| Summary.DistinctCountExact | map.py:95 | `nunique` of distinct ids is their number |
| Summary.GroupedExactly | map.py:79-85 | a parcel is grouped exactly when it is a parcel and has an event |
| Summary.GroupedOrdered | map.py:79 | the groups come in strictly increasing landuse-id order |
| Summary.SummaryTableRows | map.py:79-97 | every row summarises its parcel's events; rows are in strictly increasing landuse-id order; every parcel with events has a row |
| Summary.NoRowWithoutEvents | map.py:79-85 | a parcel without events has no row |
| Summary.NoEventsEmptyTable | map.py:79-97 | with no events the corrected table is empty |
| Summary.TwoEventExample | map.py:83-97 | events of 10 and 6 hours give total 16, mean 8, median 8 and count 2 |
| Summary.EventsOfAll | map.py:51-79 | the group of parcel `k` is exactly the events coalesced from its rows |
| Summary.PipelineRow | map.py:51-97 | parcel `k` has a row exactly when its rows coalesce to some event; that row summarises those events, and its count is their number |
| Summary.UnmatchedParcelsFail | map.py:79 | when the only parcel matches no outage, the source's groupby fails, while the corrected table is empty |

## Left out

- HTTP fetching, the TLS adapter, retries, sleeping and pagination are network I/O and
  timing. The batch and `ts` are parameters.
- Filesystem access in `merge`: `mkdir`, `exists`, reading, writing and the JSON encoding
  with sorted keys and indentation. The store is an in-memory map from shard file to
  contents. A missing file reads as empty.
- The path is a `(year, month, day)` triple of slices. How the operating system joins or
  normalises path strings, for example empty parts or a `/` inside a job id, is not modelled.
- A feature without a `properties` member is modelled as one whose properties are all
  missing. `properties` is assumed to be an object, `JOB_ID` a string and `OFF_DTTM` an integer:
  a `null` properties member (fetch.py:85), a non-string `JOB_ID` (fetch.py:98) or a string
  `OFF_DTTM` (fetch.py:93) raises in the source, and a float `OFF_DTTM` makes `OFF_HOURS` a
  float; those cases are not modelled. The mutation of the caller's feature objects in place, and their aliasing, are
  not modelled. `Normalise` returns the new feature as a value.
- Loader: the glob is a parameter, a listing of every shard file once. Its sorted string
  order and the reading and JSON decoding of each file are not modelled.
- Loader.ShardValues: the order of `data.values()` within one file follows the file's key
  order (sorted by job id when `merge` wrote the file); the contract does not state it.
- The GeoJSON parsing with geopandas, the column renaming, the CRS reprojection and the
  spatial join are foreign geometry library calls. The coalescer receives each parcel's
  `(start, end)` rows directly. A parcel that intersects no outage is a single row with
  both values missing.
- Pandas floats and NaN: missing values are `Option<int>`, and the times are integers.
- `sort_values` is not stable by default. The model sorts stably, so the order of rows
  with equal starts is a modelling choice.
- The `outage_table.at[index, 'event_id']` write-back is modelled only as the id sequence
  the sweep assigns to the rows. The dataframe mutation is not used downstream.
- The columns from `landuse.copy()` are not modelled: a summary row carries the landuse id
  and the four metrics.
- Folium rendering, the 0.95 quantile colour scale and the GCS upload are UI, floating
  point statistics and cloud I/O.
- Summary.SummarizeLengths: it does not restate that the mean times the count is the
  total, because that fact is stated once, in `Summary.MeanBounds`.

## Findings

| source | as written | input that shows it | evidently intended | confidence | as-written member | corrected member |
|---|---|---|---|---|---|---|
| map.py:79 | `pd.DataFrame(landuse_events).groupby('landuse_id')` on an empty list builds a frame with no columns, so the groupby raises a KeyError | every parcel intersects no outage, for example one parcel whose only row is `(None, None)` | an empty summary table | not executed; follows from pandas raising KeyError for a missing column | Summary.UnmatchedParcelsFail | Summary.NoEventsEmptyTable |
