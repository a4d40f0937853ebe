/** The ingestion half of the outage pipeline (fetch.py, `merge`): raw outage features
    are validated and stamped with the run's timestamp, grouped by a shard key sliced
    from the job id, and overlaid onto the date-sharded store, one shard file per
    year/month/day, with the newest record for a job id winning. */
module Fetch {
  import opened Wrappers
  import opened Hours

  /** The properties of an outage feature that `merge` reads or writes; every other
      attribute of the record is carried through unchanged in `other`. */
  datatype Properties = Properties(
    jobId: Option<string>,      // JOB_ID
    offTime: Option<int>,       // OFF_DTTM, epoch milliseconds when the outage began
    onTime: Option<int>,        // ON_DTTM, set to the run's timestamp
    offHours: Option<int>,      // OFF_HOURS, whole hours between OFF_DTTM and ON_DTTM
    other: map<string, string>)

  /** A GeoJSON feature: its `id` member, its properties and its geometry, which the
      merge never looks into and keeps in its encoded form. */
  datatype Feature = Feature(id: Option<string>, properties: Properties, geometry: string)

  /** The shard file `root/year/month/day/jobs.json`, named by its three directory parts. */
  datatype ShardPath = ShardPath(year: string, month: string, day: string)

  /** One shard file's JSON object, job id to feature. */
  type Shard = map<string, Feature>

  /** Every shard file under the store's root. */
  type Store = map<ShardPath, Shard>

  function Min(a: int, b: int): int { if a <= b then a else b }

  /** Python's `s[i:j]` for non-negative bounds: bounds past the end are clamped, and an
      empty range gives the empty string. */
  function Slice(s: string, i: nat, j: nat): (r: string)
    ensures |r| == if i <= j && i <= |s| then Min(j, |s|) - i else 0
    ensures forall t :: 0 <= t < |r| ==> r[t] == s[i + t]
  {
    var hi := Min(j, |s|);
    if i <= hi then s[i..hi] else ""
  }

  /** `job_id[2:8]`: the six characters after a two-character prefix, which encode the
      job's year, month and day. */
  function ShardKey(jobId: string): (key: string)
    ensures |key| <= 6
    ensures |key| == if |jobId| <= 2 then 0 else Min(|jobId|, 8) - 2
    ensures forall t :: 0 <= t < |key| ==> key[t] == jobId[2 + t]
  {
    Slice(jobId, 2, 8)
  }

  /** `key[0:2], key[2:4], key[4:6]`: the directories of the key's shard file. */
  function ShardPathOf(key: string): (p: ShardPath)
    ensures |p.year| <= 2 && |p.month| <= 2 && |p.day| <= 2
    ensures |p.year| == Min(|key|, 2)
    ensures |p.month| == Min(|key| - |p.year|, 2)
    ensures |p.day| == Min(|key| - |p.year| - |p.month|, 2)
    ensures forall t :: 0 <= t < |p.year| ==> p.year[t] == key[t]
    ensures forall t :: 0 <= t < |p.month| ==> p.month[t] == key[2 + t]
    ensures forall t :: 0 <= t < |p.day| ==> p.day[t] == key[4 + t]
  {
    ShardPath(Slice(key, 0, 2), Slice(key, 2, 4), Slice(key, 4, 6))
  }

  /** The shard file a job id is stored in. */
  function JobPath(jobId: string): ShardPath
  {
    ShardPathOf(ShardKey(jobId))
  }

  /** `feat.get('id')`, the key a feature is stored under (the empty string when absent;
      every accepted feature has one). */
  function IdOf(f: Feature): string
  {
    match f.id
    case Some(j) => j
    case None => ""
  }

  /** The shape of every feature `merge` writes: its id is its non-empty JOB_ID, and it
      carries an OFF_DTTM, an ON_DTTM and an OFF_HOURS. */
  predicate Normalised(f: Feature)
  {
    && f.id.Some? && f.id.value != ""
    && f.properties.jobId == f.id
    && f.properties.offTime.Some? && f.properties.offTime.value != 0
    && f.properties.onTime.Some?
    && f.properties.offHours.Some?
  }

  /** The normaliser of fetch.py:84-96. A feature whose JOB_ID is missing or empty, or whose
      OFF_DTTM is missing or zero (both falsy in Python), is skipped. An accepted one gets
      ON_DTTM = ts, OFF_HOURS = floor((ts - OFF_DTTM) / 3600000) and id = JOB_ID. */
  function Normalise(feat: Feature, ts: int): (r: Option<Feature>)
    ensures r.Some? <==> (feat.properties.jobId.Some? && feat.properties.jobId.value != ""
                          && feat.properties.offTime.Some? && feat.properties.offTime.value != 0)
    ensures r.Some? ==> Normalised(r.value)
    ensures r.Some? ==> r.value.id == feat.properties.jobId && r.value.properties.onTime == Some(ts)
    ensures r.Some? ==>
              var hours := r.value.properties.offHours.value;
              var elapsed := ts - feat.properties.offTime.value;
              hours * MillisPerHour <= elapsed < (hours + 1) * MillisPerHour
    ensures r.Some? ==> && r.value.properties.offTime == feat.properties.offTime
                        && r.value.properties.other == feat.properties.other
                        && r.value.geometry == feat.geometry
  {
    var props := feat.properties;
    match props.jobId
    case None => None
    case Some(jobId) =>
      if jobId == "" then None
      else
        match props.offTime
        case None => None
        case Some(off) =>
          if off == 0 then None
          else
            var stamped := props.(onTime := Some(ts), offHours := Some(HoursBetween(off, ts)));
            Some(Feature(Some(jobId), stamped, feat.geometry))
  }

  /** The accepted, normalised features of a batch, in input order. */
  function Accepted(batch: seq<Feature>, ts: int): (acc: seq<Feature>)
    ensures |acc| <= |batch|
    ensures forall t :: 0 <= t < |acc| ==> Normalised(acc[t])
  {
    if batch == [] then []
    else
      var rest := Accepted(batch[..|batch| - 1], ts);
      match Normalise(batch[|batch| - 1], ts)
      case None => rest
      case Some(f) => rest + [f]
  }

  /** The features of `fs` whose shard key is `key`, in order: the list `features[key]`. */
  function OnKey(fs: seq<Feature>, key: string): (r: seq<Feature>)
    ensures |r| <= |fs|
    ensures forall x :: x in r ==> x in fs && ShardKey(IdOf(x)) == key
  {
    if fs == [] then []
    else
      var rest := OnKey(fs[..|fs| - 1], key);
      var f := fs[|fs| - 1];
      if ShardKey(IdOf(f)) == key then rest + [f] else rest
  }

  /** The features of `fs` that belong in shard file `p`, in order. */
  function OnPath(fs: seq<Feature>, p: ShardPath): (r: seq<Feature>)
    ensures |r| <= |fs|
    ensures forall x :: x in r ==> x in fs && JobPath(IdOf(x)) == p
  {
    if fs == [] then []
    else
      var rest := OnPath(fs[..|fs| - 1], p);
      var f := fs[|fs| - 1];
      if JobPath(IdOf(f)) == p then rest + [f] else rest
  }

  /** `{feat.get('id'): feat for feat in feats}`: a later feature replaces an earlier one
      with the same id. */
  function Keyed(fs: seq<Feature>): (m: Shard)
    ensures forall t :: 0 <= t < |fs| ==> IdOf(fs[t]) in m
    ensures forall j :: j in m ==> m[j] in fs && IdOf(m[j]) == j
  {
    if fs == [] then map[]
    else
      var f := fs[|fs| - 1];
      var m := Keyed(fs[..|fs| - 1]);
      assert forall j :: j in m ==> m[j] in fs;
      m[IdOf(f) := f]
  }

  /** The shard files a list of accepted features writes to. */
  function TouchedPaths(acc: seq<Feature>): set<ShardPath>
  {
    set t | 0 <= t < |acc| :: JobPath(IdOf(acc[t]))
  }

  /** A shard file's contents, empty when the file does not exist. */
  function Existing(store: Store, p: ShardPath): Shard
  {
    if p in store then store[p] else map[]
  }

  /** The store after `merge(batch, ts)`: every shard file the batch touches holds its old
      contents overlaid with the batch's features for it (`data.update(...)`); no other
      file is written. */
  function Merged(store: Store, batch: seq<Feature>, ts: int): Store
  {
    Overlay(store, Accepted(batch, ts))
  }

  /** The store with every shard file that `acc` touches overlaid with its features for it. */
  function Overlay(store: Store, acc: seq<Feature>): Store
  {
    map p | p in store.Keys + TouchedPaths(acc) :: Existing(store, p) + Keyed(OnPath(acc, p))
  }

  /** What `merge` keeps true of the store: each feature sits in the shard file of its own
      job id, under that job id, in normalised form. */
  ghost predicate WellFormed(store: Store)
  {
    forall p, j :: p in store && j in store[p] ==>
      JobPath(j) == p && IdOf(store[p][j]) == j && Normalised(store[p][j])
  }

  // ----- Shard-key derivation -----

  /** A key of at most six characters is the concatenation of its three path parts, so
      distinct keys land in distinct shard files. */
  lemma ShardPathSpellsKey(key: string)
    requires |key| <= 6
    ensures var p := ShardPathOf(key); p.year + p.month + p.day == key
  {
    var p := ShardPathOf(key);
    var whole := p.year + p.month + p.day;
    assert |whole| == |key|;
    forall t | 0 <= t < |key| ensures whole[t] == key[t] {
      if t < |p.year| {
      } else if t < |p.year| + |p.month| {
        assert whole[t] == p.month[t - |p.year|];
      } else {
        assert whole[t] == p.day[t - |p.year| - |p.month|];
      }
    }
  }

  lemma ShardPathInjective(k1: string, k2: string)
    requires |k1| <= 6 && |k2| <= 6
    requires ShardPathOf(k1) == ShardPathOf(k2)
    ensures k1 == k2
  {
    ShardPathSpellsKey(k1);
    ShardPathSpellsKey(k2);
  }

  /** For a job id of the expected shape the shard file is `yy/mm/dd` taken from
      characters 2..8, and it depends on nothing but those six characters. */
  lemma JobPathOfWellFormedId(jobId: string)
    requires |jobId| >= 8
    ensures JobPath(jobId) == ShardPath(jobId[2..4], jobId[4..6], jobId[6..8])
  {
    var key := ShardKey(jobId);
    assert key == jobId[2..8];
    assert Slice(key, 0, 2) == jobId[2..4];
    assert Slice(key, 2, 4) == jobId[4..6];
    assert Slice(key, 4, 6) == jobId[6..8];
  }

  lemma SameDateSameShard(id1: string, id2: string)
    requires |id1| >= 8 && |id2| >= 8 && id1[2..8] == id2[2..8]
    ensures JobPath(id1) == JobPath(id2)
  {
    JobPathOfWellFormedId(id1);
    JobPathOfWellFormedId(id2);
    assert id1[2..4] == id1[2..8][0..2] == id2[2..8][0..2] == id2[2..4];
    assert id1[4..6] == id1[2..8][2..4] == id2[2..8][2..4] == id2[4..6];
    assert id1[6..8] == id1[2..8][4..6] == id2[2..8][4..6] == id2[6..8];
  }

  // ----- Grouping and overlay -----

  /** Grouping by key and grouping by shard file agree: keys are at most six characters. */
  lemma {:induction false} OnKeyIsOnPath(fs: seq<Feature>, key: string)
    requires |key| <= 6
    ensures OnKey(fs, key) == OnPath(fs, ShardPathOf(key))
  {
    if fs != [] {
      OnKeyIsOnPath(fs[..|fs| - 1], key);
      var k := ShardKey(IdOf(fs[|fs| - 1]));
      if ShardPathOf(k) == ShardPathOf(key) {
        ShardPathInjective(k, key);
      }
    }
  }

  lemma {:induction false} AcceptedAppend(a: seq<Feature>, b: seq<Feature>, ts: int)
    ensures Accepted(a + b, ts) == Accepted(a, ts) + Accepted(b, ts)
    decreases |b|
  {
    if b == [] {
      assert a + b == a;
    } else {
      var b' := b[..|b| - 1];
      assert (a + b)[..|a + b| - 1] == a + b';
      AcceptedAppend(a, b', ts);
    }
  }

  lemma {:induction false} OnPathNotTouched(fs: seq<Feature>, p: ShardPath)
    requires p !in TouchedPaths(fs)
    ensures OnPath(fs, p) == []
  {
    if fs != [] {
      var init := fs[..|fs| - 1];
      assert TouchedPaths(init) <= TouchedPaths(fs) by {
        forall q | q in TouchedPaths(init) ensures q in TouchedPaths(fs) {
          var t :| 0 <= t < |init| && q == JobPath(IdOf(init[t]));
          assert init[t] == fs[t];
        }
      }
      OnPathNotTouched(init, p);
      assert JobPath(IdOf(fs[|fs| - 1])) in TouchedPaths(fs);
    }
  }

  /** The feature stored for a job id is the last accepted feature of the batch carrying it. */
  lemma {:induction false} KeyedLastWins(fs: seq<Feature>, t: nat)
    requires t < |fs|
    requires forall u :: t < u < |fs| ==> IdOf(fs[u]) != IdOf(fs[t])
    ensures IdOf(fs[t]) in Keyed(fs) && Keyed(fs)[IdOf(fs[t])] == fs[t]
  {
    if t < |fs| - 1 {
      var init := fs[..|fs| - 1];
      KeyedLastWins(init, t);
    }
  }

  /** Accepted features carry, as their id, the JOB_ID of an accepted feature of the batch. */
  lemma {:induction false} AcceptedIdsFromBatch(batch: seq<Feature>, ts: int, j: string)
    requires forall i :: 0 <= i < |batch| && Normalise(batch[i], ts).Some? ==> batch[i].properties.jobId != Some(j)
    ensures forall t :: 0 <= t < |Accepted(batch, ts)| ==> IdOf(Accepted(batch, ts)[t]) != j
  {
    if batch != [] {
      AcceptedIdsFromBatch(batch[..|batch| - 1], ts, j);
    }
  }

  /** Last write wins within a batch: if the i-th raw feature is accepted as `f` and no later
      accepted feature carries the same JOB_ID, `f` is what the merge stores for that job id.
      Later features with that JOB_ID that are skipped do not matter. */
  lemma {:induction false} MergeStoresLatest(store: Store, batch: seq<Feature>, ts: int, i: nat)
    requires i < |batch| && Normalise(batch[i], ts).Some?
    requires forall i' :: i < i' < |batch| && Normalise(batch[i'], ts).Some? ==>
               batch[i'].properties.jobId != batch[i].properties.jobId
    ensures var f := Normalise(batch[i], ts).value;
            var m := Merged(store, batch, ts);
            JobPath(IdOf(f)) in m && IdOf(f) in m[JobPath(IdOf(f))] && m[JobPath(IdOf(f))][IdOf(f)] == f
  {
    var f := Normalise(batch[i], ts).value;
    var j := IdOf(f);
    var front := Accepted(batch[..i], ts) + [f];
    var back := Accepted(batch[i + 1..], ts);
    AcceptedAround(batch, ts, i);
    var after := batch[i + 1..];
    forall k | 0 <= k < |after| && Normalise(after[k], ts).Some? ensures after[k].properties.jobId != Some(j) {
      assert after[k] == batch[i + 1 + k];
    }
    AcceptedIdsFromBatch(after, ts, j);
    var acc := front + back;
    var t := |front| - 1;
    assert acc[t] == f;
    assert JobPath(IdOf(acc[t])) in TouchedPaths(acc);
    forall u | t < u < |acc| ensures IdOf(acc[u]) != j {
      assert acc[u] == back[u - |front|];
    }
    OnPathLastWins(acc, t, JobPath(j));
  }

  /** A later feature with the same JOB_ID that is skipped does not displace an accepted one. */
  lemma LaterSkippedDuplicate(store: Store, first: Feature, second: Feature, ts: int)
    requires Normalise(first, ts).Some? && Normalise(second, ts).None?
    requires first.properties.jobId == second.properties.jobId
    ensures var j := first.properties.jobId.value;
            var m := Merged(store, [first, second], ts);
            JobPath(j) in m && j in m[JobPath(j)] && m[JobPath(j)][j] == Normalise(first, ts).value
  {
    MergeStoresLatest(store, [first, second], ts, 0);
  }

  /** The accepted features of a batch, split around an accepted feature at index `i`. */
  lemma AcceptedAround(batch: seq<Feature>, ts: int, i: nat)
    requires i < |batch| && Normalise(batch[i], ts).Some?
    ensures Accepted(batch, ts) ==
              Accepted(batch[..i], ts) + [Normalise(batch[i], ts).value] + Accepted(batch[i + 1..], ts)
  {
    assert batch == batch[..i + 1] + batch[i + 1..];
    AcceptedAppend(batch[..i + 1], batch[i + 1..], ts);
    AcceptedStep(batch, i, ts);
  }

  /** The single-file view of last write wins: among the features for shard `p`, the last
      one with a given id is the stored one. */
  lemma {:induction false} OnPathLastWins(fs: seq<Feature>, t: nat, p: ShardPath)
    requires t < |fs| && JobPath(IdOf(fs[t])) == p
    requires forall u :: t < u < |fs| ==> IdOf(fs[u]) != IdOf(fs[t])
    ensures IdOf(fs[t]) in Keyed(OnPath(fs, p)) && Keyed(OnPath(fs, p))[IdOf(fs[t])] == fs[t]
  {
    var init := fs[..|fs| - 1];
    var f := fs[|fs| - 1];
    assert fs == init + [f];
    if t == |fs| - 1 {
      LastOnPathStored(init, f, p);
    } else {
      assert init[t] == fs[t];
      assert forall u :: t < u < |init| ==> init[u] == fs[u];
      OnPathLastWins(init, t, p);
      LaterOtherIdKeeps(init, f, p, IdOf(fs[t]));
    }
  }

  /** A feature appended for shard `p` is what `p` stores under its id. */
  lemma LastOnPathStored(fs: seq<Feature>, f: Feature, p: ShardPath)
    requires JobPath(IdOf(f)) == p
    ensures IdOf(f) in Keyed(OnPath(fs + [f], p)) && Keyed(OnPath(fs + [f], p))[IdOf(f)] == f
  {
    OnPathAppend(fs, f, p);
    KeyedAppend(OnPath(fs, p), f);
  }

  /** Appending a feature with another id leaves what shard `p` stores under `j`. */
  lemma LaterOtherIdKeeps(fs: seq<Feature>, f: Feature, p: ShardPath, j: string)
    requires j in Keyed(OnPath(fs, p)) && IdOf(f) != j
    ensures j in Keyed(OnPath(fs + [f], p)) && Keyed(OnPath(fs + [f], p))[j] == Keyed(OnPath(fs, p))[j]
  {
    OnPathAppend(fs, f, p);
    KeyedKeepsOther(OnPath(fs, p), OnPath(fs + [f], p), f, j);
  }

  /** Whether or not `f` is appended, a different id keeps its stored feature. */
  lemma KeyedKeepsOther(xs: seq<Feature>, ys: seq<Feature>, f: Feature, j: string)
    requires ys == xs || ys == xs + [f]
    requires j in Keyed(xs) && IdOf(f) != j
    ensures j in Keyed(ys) && Keyed(ys)[j] == Keyed(xs)[j]
  {
    if ys != xs {
      KeyedAppend(xs, f);
    }
  }

  /** Unfolds `OnPath` on a list extended by one feature. */
  lemma OnPathAppend(fs: seq<Feature>, f: Feature, p: ShardPath)
    ensures OnPath(fs + [f], p) == if JobPath(IdOf(f)) == p then OnPath(fs, p) + [f] else OnPath(fs, p)
  {
    assert (fs + [f])[..|fs|] == fs;
  }

  /** Unfolds `Keyed` on a list extended by one feature. */
  lemma KeyedAppend(fs: seq<Feature>, f: Feature)
    ensures Keyed(fs + [f]) == Keyed(fs)[IdOf(f) := f]
  {
    assert (fs + [f])[..|fs|] == fs;
  }

  /** A job id that no accepted feature of the batch carries keeps its stored feature. */
  lemma MergeKeepsUnrelated(store: Store, batch: seq<Feature>, ts: int, p: ShardPath, j: string)
    requires p in store && j in store[p]
    requires forall i :: 0 <= i < |batch| && Normalise(batch[i], ts).Some? ==> batch[i].properties.jobId != Some(j)
    ensures p in Merged(store, batch, ts) && j in Merged(store, batch, ts)[p]
    ensures Merged(store, batch, ts)[p][j] == store[p][j]
  {
    var acc := Accepted(batch, ts);
    AcceptedIdsFromBatch(batch, ts, j);
    assert j !in Keyed(OnPath(acc, p));
  }

  lemma MergeLeavesOtherShards(store: Store, batch: seq<Feature>, ts: int, p: ShardPath)
    requires p !in TouchedPaths(Accepted(batch, ts))
    ensures p in Merged(store, batch, ts) <==> p in store
    ensures p in store ==> Merged(store, batch, ts)[p] == store[p]
  {
    OnPathNotTouched(Accepted(batch, ts), p);
  }

  /** A skipped feature leaves no trace: removing it from the batch does not change the
      resulting store. */
  lemma SkippedFeatureIgnored(store: Store, before: seq<Feature>, feat: Feature, after: seq<Feature>, ts: int)
    requires Normalise(feat, ts).None?
    ensures Merged(store, before + [feat] + after, ts) == Merged(store, before + after, ts)
  {
    AcceptedAppend(before + [feat], after, ts);
    AcceptedAppend(before, [feat], ts);
    AcceptedAppend(before, after, ts);
    assert [feat][..0] == [];
  }

  lemma OverlayTwice(data: Shard, update: Shard)
    ensures (data + update) + update == data + update
  {
  }

  /** Re-running a merge with the same batch and timestamp changes nothing. */
  lemma MergeIdempotent(store: Store, batch: seq<Feature>, ts: int)
    ensures Merged(Merged(store, batch, ts), batch, ts) == Merged(store, batch, ts)
  {
    OverlayIdempotent(store, Accepted(batch, ts));
  }

  lemma OverlayIdempotent(store: Store, acc: seq<Feature>)
    ensures Overlay(Overlay(store, acc), acc) == Overlay(store, acc)
  {
    var once := Overlay(store, acc);
    var twice := Overlay(once, acc);
    assert twice.Keys == once.Keys;
    forall p | p in once ensures twice[p] == once[p] {
      var update := Keyed(OnPath(acc, p));
      assert once[p] == Existing(store, p) + update;
      assert twice[p] == once[p] + update;
      OverlayTwice(Existing(store, p), update);
    }
  }

  /** A later run's record for a job id supersedes the earlier run's one. */
  lemma LaterRunSupersedes(store: Store, first: Feature, second: Feature, ts1: int, ts2: int)
    requires Normalise(first, ts1).Some? && Normalise(second, ts2).Some?
    requires first.properties.jobId == second.properties.jobId
    ensures var j := second.properties.jobId.value;
            var m := Merged(Merged(store, [first], ts1), [second], ts2);
            JobPath(j) in m && j in m[JobPath(j)] && m[JobPath(j)][j] == Normalise(second, ts2).value
  {
    MergeStoresLatest(Merged(store, [first], ts1), [second], ts2, 0);
  }

  /** Merging keeps the store well formed. */
  lemma MergePreservesWellFormed(store: Store, batch: seq<Feature>, ts: int)
    requires WellFormed(store)
    ensures WellFormed(Merged(store, batch, ts))
  {
    var acc := Accepted(batch, ts);
    var m := Merged(store, batch, ts);
    forall p, j | p in m && j in m[p]
      ensures JobPath(j) == p && IdOf(m[p][j]) == j && Normalised(m[p][j])
    {
      if j in Keyed(OnPath(acc, p)) {
        IncomingWellFormed(acc, p, j);
      }
    }
  }

  /** A feature the batch writes into shard file `p` under id `j` is normalised, carries id
      `j`, and `j` belongs in `p`. */
  lemma IncomingWellFormed(acc: seq<Feature>, p: ShardPath, j: string)
    requires forall t :: 0 <= t < |acc| ==> Normalised(acc[t])
    requires j in Keyed(OnPath(acc, p))
    ensures var x := Keyed(OnPath(acc, p))[j];
            JobPath(j) == p && IdOf(x) == j && Normalised(x)
  {
    var x := Keyed(OnPath(acc, p))[j];
    assert x in OnPath(acc, p);
    var t :| 0 <= t < |acc| && acc[t] == x;
  }

  // ----- The imperative merge -----

  lemma AcceptedStep(batch: seq<Feature>, i: nat, ts: int)
    requires i < |batch|
    ensures Accepted(batch[..i + 1], ts) ==
              match Normalise(batch[i], ts)
              case None => Accepted(batch[..i], ts)
              case Some(f) => Accepted(batch[..i], ts) + [f]
  {
    assert batch[..i + 1][..i] == batch[..i];
  }

  lemma OnKeyAppend(fs: seq<Feature>, f: Feature, key: string)
    ensures OnKey(fs + [f], key) == if ShardKey(IdOf(f)) == key then OnKey(fs, key) + [f] else OnKey(fs, key)
  {
    assert (fs + [f])[..|fs|] == fs;
  }

  /** A non-empty group's key was sliced from a job id, so it has at most six characters. */
  lemma GroupKeyShort(acc: seq<Feature>, key: string)
    requires OnKey(acc, key) != []
    ensures |key| <= 6
  {
    assert OnKey(acc, key)[0] in OnKey(acc, key);
  }

  /** Every feature is in the group of its own key. */
  lemma {:induction false} OnKeyHolds(fs: seq<Feature>, t: nat)
    requires t < |fs|
    ensures fs[t] in OnKey(fs, ShardKey(IdOf(fs[t])))
  {
    if t < |fs| - 1 {
      OnKeyHolds(fs[..|fs| - 1], t);
    }
  }

  /** Appending a feature whose key is already grouped extends that key's group. */
  lemma GroupingExtend(acc: seq<Feature>, order: seq<string>, groups: map<string, seq<Feature>>, f: Feature)
    requires Grouping(acc, order, groups) && ShardKey(IdOf(f)) in groups
    ensures var key := ShardKey(IdOf(f));
            Grouping(acc + [f], order, groups[key := groups[key] + [f]])
  {
    var key := ShardKey(IdOf(f));
    GroupsAreStep(acc, groups, f, groups[key := groups[key] + [f]]);
  }

  /** Appending a feature with a new key opens a one-feature group at the end of the order. */
  lemma GroupingAdd(acc: seq<Feature>, order: seq<string>, groups: map<string, seq<Feature>>, f: Feature)
    requires Grouping(acc, order, groups) && ShardKey(IdOf(f)) !in groups
    ensures var key := ShardKey(IdOf(f));
            Grouping(acc + [f], order + [key], groups[key := [f]])
  {
    var key := ShardKey(IdOf(f));
    GroupsAreStep(acc, groups, f, groups[key := [f]]);
    assert key !in order;
    DistinctAppend(order, key);
  }

  /** After appending `f`, the group of `f`'s key is its old group followed by `f`, and no
      other group changes. */
  lemma GroupsAreStep(acc: seq<Feature>, groups: map<string, seq<Feature>>, f: Feature, groups2: map<string, seq<Feature>>)
    requires GroupsAre(acc, groups)
    requires var key := ShardKey(IdOf(f));
             && key in groups2 && groups2[key] == GroupOf(groups, key) + [f]
             && (forall k :: k != key ==> (k in groups2 <==> k in groups))
             && (forall k :: k != key && k in groups ==> groups2[k] == groups[k])
    ensures GroupsAre(acc + [f], groups2)
  {
    forall k ensures OnKey(acc + [f], k) == GroupOf(groups2, k) {
      OnKeyAppend(acc, f, k);
    }
  }

  /** Appending an absent key to a list of distinct keys keeps them distinct. */
  lemma DistinctAppend<T>(keys: seq<T>, key: T)
    requires Distinct(keys) && key !in keys
    ensures Distinct(keys + [key])
  {
    var keys2 := keys + [key];
    forall s, t | 0 <= s < t < |keys2| ensures keys2[s] != keys2[t] {
      if t == |keys| {
        assert keys2[s] == keys[s];
      } else {
        assert keys2[s] == keys[s] && keys2[t] == keys[t];
      }
    }
  }

  /** No key is listed twice. */
  predicate Distinct<T(==)>(keys: seq<T>)
  {
    forall s, t :: 0 <= s < t < |keys| ==> keys[s] != keys[t]
  }

  /** The group of `key`, empty when there is none. */
  function GroupOf(groups: map<string, seq<Feature>>, key: string): seq<Feature>
  {
    if key in groups then groups[key] else []
  }

  /** Each key's group is exactly the features of `acc` with that key, in input order. */
  ghost predicate GroupsAre(acc: seq<Feature>, groups: map<string, seq<Feature>>)
  {
    forall key :: OnKey(acc, key) == GroupOf(groups, key)
  }

  /** `groups` and `order` are the grouping of `acc` by shard key: the keys of `groups` are
      the entries of `order`, each listed once; no group is empty; and each key's group is
      exactly the features of `acc` with that key, in input order. */
  ghost predicate Grouping(acc: seq<Feature>, order: seq<string>, groups: map<string, seq<Feature>>)
  {
    && (forall key :: key in groups <==> key in order)
    && Distinct(order)
    && (forall key :: key in groups ==> groups[key] != [])
    && GroupsAre(acc, groups)
  }

  /** The first loop of `merge` (fetch.py:82-102): the accepted features grouped by shard
      key, each group in input order, with every key listed once in `order`. */
  method GroupByShard(batch: seq<Feature>, ts: int) returns (order: seq<string>, groups: map<string, seq<Feature>>)
    ensures Grouping(Accepted(batch, ts), order, groups)
  {
    order, groups := [], map[];
    ghost var acc: seq<Feature> := [];
    for i := 0 to |batch|
      invariant acc == Accepted(batch[..i], ts)
      invariant Grouping(acc, order, groups)
    {
      AcceptedStep(batch, i, ts);
      var accepted := Normalise(batch[i], ts);
      if accepted.Some? {
        var feat := accepted.value;
        var key := ShardKey(IdOf(feat));
        if key in groups {
          GroupingExtend(acc, order, groups, feat);
          groups := groups[key := groups[key] + [feat]];
        } else {
          GroupingAdd(acc, order, groups, feat);
          groups := groups[key := [feat]];
          order := order + [key];
        }
        acc := acc + [feat];
      }
    }
    assert batch[..|batch|] == batch;
  }

  /** The dictionary comprehension of fetch.py:112, one feature at a time. */
  method IndexById(feats: seq<Feature>) returns (m: Shard)
    ensures m == Keyed(feats)
  {
    m := map[];
    for i := 0 to |feats|
      invariant m == Keyed(feats[..i])
    {
      assert feats[..i + 1][..i] == feats[..i];
      m := m[IdOf(feats[i]) := feats[i]];
    }
    assert feats[..|feats|] == feats;
  }

  /** The contents the batch writes into each shard file it touches. */
  ghost function Incoming(acc: seq<Feature>): map<ShardPath, Shard>
  {
    map p | p in TouchedPaths(acc) :: Keyed(OnPath(acc, p))
  }

  /** The contents written into shard file `p`, nothing when there are none. */
  ghost function UpdateAt(updates: map<ShardPath, Shard>, p: ShardPath): Shard
  {
    if p in updates then updates[p] else map[]
  }

  /** The store once the shard files in `done` have been rewritten with `updates`. */
  ghost function OverlaidOn(store: Store, updates: map<ShardPath, Shard>, done: set<ShardPath>): Store
  {
    map p | p in store.Keys + done :: if p in done then Existing(store, p) + UpdateAt(updates, p) else store[p]
  }

  lemma OverlaidOnStep(store: Store, updates: map<ShardPath, Shard>, done: set<ShardPath>, p: ShardPath)
    requires p !in done
    ensures OverlaidOn(store, updates, done)[p := Existing(store, p) + UpdateAt(updates, p)]
            == OverlaidOn(store, updates, done + {p})
  {
    var now := OverlaidOn(store, updates, done);
    var next := OverlaidOn(store, updates, done + {p});
    var written := now[p := Existing(store, p) + UpdateAt(updates, p)];
    assert written.Keys == next.Keys;
    forall q | q in written ensures written[q] == next[q] {
      if q != p {
        assert written[q] == now[q];
      }
    }
  }

  /** Writing shard `p` reads the store as it was: no earlier step has written `p`. */
  lemma ExistingBeforeWrite(store: Store, updates: map<ShardPath, Shard>, done: set<ShardPath>, p: ShardPath)
    requires p !in done
    ensures Existing(OverlaidOn(store, updates, done), p) == Existing(store, p)
  {
  }

  /** Every shard file receives the batch's features for it, none when it is not touched. */
  lemma IncomingAt(acc: seq<Feature>, p: ShardPath)
    ensures UpdateAt(Incoming(acc), p) == Keyed(OnPath(acc, p))
  {
    if p !in TouchedPaths(acc) {
      OnPathNotTouched(acc, p);
    }
  }

  lemma OverlaidOnTouched(store: Store, acc: seq<Feature>)
    ensures OverlaidOn(store, Incoming(acc), TouchedPaths(acc)) == Overlay(store, acc)
  {
    var lhs := OverlaidOn(store, Incoming(acc), TouchedPaths(acc));
    var rhs := Overlay(store, acc);
    assert lhs.Keys == rhs.Keys;
    forall p | p in lhs ensures lhs[p] == rhs[p] {
      OverlaidOnTouchedAt(store, acc, p);
    }
  }

  /** Rewriting every touched shard file gives each file its merged contents. */
  lemma OverlaidOnTouchedAt(store: Store, acc: seq<Feature>, p: ShardPath)
    requires p in store.Keys + TouchedPaths(acc)
    ensures OverlaidOn(store, Incoming(acc), TouchedPaths(acc))[p] == Existing(store, p) + Keyed(OnPath(acc, p))
  {
    IncomingAt(acc, p);
    if p !in TouchedPaths(acc) {
      OnPathNotTouched(acc, p);
      assert Keyed(OnPath(acc, p)) == map[];
    }
  }

  /** The shard files of the grouped keys are exactly the files the batch touches. */
  lemma GroupsCoverTouched(acc: seq<Feature>, order: seq<string>, groups: map<string, seq<Feature>>)
    requires Grouping(acc, order, groups)
    ensures PathsOf(order) == TouchedPaths(acc)
  {
    var done := PathsOf(order);
    forall p | p in TouchedPaths(acc) ensures p in done {
      var t :| 0 <= t < |acc| && p == JobPath(IdOf(acc[t]));
      var key := ShardKey(IdOf(acc[t]));
      OnKeyHolds(acc, t);
      assert key in groups;
      var s :| 0 <= s < |order| && order[s] == key;
    }
    forall p | p in done ensures p in TouchedPaths(acc) {
      var s :| 0 <= s < |order| && p == ShardPathOf(order[s]);
      var key := order[s];
      var x := groups[key][0];
      assert x in OnKey(acc, key);
      var t :| 0 <= t < |acc| && acc[t] == x;
      assert JobPath(IdOf(acc[t])) == p;
    }
  }

  /** The shard files a list of keys names. */
  ghost function PathsOf(keys: seq<string>): set<ShardPath>
  {
    set s | 0 <= s < |keys| :: ShardPathOf(keys[s])
  }

  /** Rewriting the shard files of every grouped key gives the merged store. */
  lemma WriteAllShards(store: Store, batch: seq<Feature>, ts: int, order: seq<string>, groups: map<string, seq<Feature>>)
    requires Grouping(Accepted(batch, ts), order, groups)
    ensures OverlaidOn(store, Incoming(Accepted(batch, ts)), PathsOf(order)) == Merged(store, batch, ts)
  {
    GroupsCoverTouched(Accepted(batch, ts), order, groups);
    OverlaidOnTouched(store, Accepted(batch, ts));
  }

  /** Extending a list of keys by one key adds that key's shard file. */
  lemma PathsOfStep(keys: seq<string>, i: nat)
    requires i < |keys|
    ensures PathsOf(keys[..i + 1]) == PathsOf(keys[..i]) + {ShardPathOf(keys[i])}
  {
    assert forall s :: 0 <= s < i ==> keys[..i + 1][s] == keys[..i][s];
    assert keys[..i + 1][i] == keys[i];
  }

  /** Distinct grouped keys name distinct shard files, so the next key's file has not been
      written by an earlier key. */
  lemma NextPathFresh(acc: seq<Feature>, order: seq<string>, groups: map<string, seq<Feature>>, i: nat)
    requires i < |order|
    requires Grouping(acc, order, groups)
    ensures ShardPathOf(order[i]) !in PathsOf(order[..i])
  {
    var key := order[i];
    GroupKeyShort(acc, key);
    forall s | 0 <= s < i ensures ShardPathOf(order[..i][s]) != ShardPathOf(key) {
      if ShardPathOf(order[s]) == ShardPathOf(key) {
        GroupKeyShort(acc, order[s]);
        ShardPathInjective(order[s], key);
      }
    }
  }

  /** Rewriting the next grouped key's shard file, `now` being the store with the files of
      the keys before it rewritten, gives the store with that file rewritten as well. */
  lemma WriteShardStep(store: Store, acc: seq<Feature>, order: seq<string>, groups: map<string, seq<Feature>>, i: nat, now: Store)
    requires i < |order|
    requires Grouping(acc, order, groups)
    requires now == OverlaidOn(store, Incoming(acc), PathsOf(order[..i]))
    ensures var path := ShardPathOf(order[i]);
            now[path := Existing(now, path) + Keyed(groups[order[i]])] == OverlaidOn(store, Incoming(acc), PathsOf(order[..i + 1]))
  {
    NextPathFresh(acc, order, groups, i);
    PathsOfStep(order, i);
    GroupKeyShort(acc, order[i]);
    OnKeyIsOnPath(acc, order[i]);
    IncomingAt(acc, ShardPathOf(order[i]));
    ExistingBeforeWrite(store, Incoming(acc), PathsOf(order[..i]), ShardPathOf(order[i]));
    OverlaidOnStep(store, Incoming(acc), PathsOf(order[..i]), ShardPathOf(order[i]));
  }

  /** The on-disk store under one root directory; `shards` holds every `jobs.json` file. */
  class ShardStore {
    var shards: Store

    /** A root directory with no shard files yet. */
    constructor ()
      ensures shards == map[] && WellFormed(shards)
    {
      shards := map[];
    }

    /** `merge(geojson, ts, root)`: group the accepted features by shard key, then for each
        key load the shard file (empty when missing), overlay the group and write it back. */
    method Merge(batch: seq<Feature>, ts: int)
      modifies this
      ensures shards == Merged(old(shards), batch, ts)
      ensures WellFormed(old(shards)) ==> WellFormed(shards)
    {
      var order, groups := GroupByShard(batch, ts);
      ghost var acc := Accepted(batch, ts);
      ghost var start := shards;
      for i := 0 to |order|
        invariant shards == OverlaidOn(start, Incoming(acc), PathsOf(order[..i]))
      {
        var key := order[i];
        var path := ShardPathOf(key);
        var data := if path in shards then shards[path] else map[];
        var update := IndexById(groups[key]);
        WriteShardStep(start, acc, order, groups, i, shards);
        data := data + update;
        shards := shards[path := data];
      }
      assert order[..|order|] == order;
      WriteAllShards(start, batch, ts, order, groups);
      if WellFormed(start) {
        MergePreservesWellFormed(start, batch, ts);
      }
    }
  }
}
