/** The loader at the head of the map builder (map.py:19-23): it visits every `jobs.json` shard
    file of the store in sorted path order and concatenates the values of each file's
    `job id -> feature` mapping into one list of features. */
module Loader {
  import opened Fetch

  /** Where a loaded feature came from: the shard file and the job id it is stored under. */
  datatype Entry = Entry(path: ShardPath, id: string)

  /** The entry names a stored feature. */
  predicate Stored(store: Store, e: Entry)
  {
    e.path in store && e.id in store[e.path]
  }

  /** The position of `p` in the file listing (its first occurrence). */
  function IndexIn(listing: seq<ShardPath>, p: ShardPath): (k: nat)
    requires p in listing
    ensures k < |listing| && listing[k] == p
    ensures forall k' :: 0 <= k' < k ==> listing[k'] != p
  {
    if listing[0] == p then 0 else 1 + IndexIn(listing[1..], p)
  }

  /** In a listing without repeats, the file at position `k` is found at position `k`. */
  lemma IndexInDistinct(listing: seq<ShardPath>, k: nat)
    requires Distinct(listing) && k < |listing|
    ensures IndexIn(listing, listing[k]) == k
  {
  }

  /** The entries of the keys of one shard file. */
  function Tag(p: ShardPath, keys: seq<string>): (es: seq<Entry>)
    ensures |es| == |keys|
    ensures forall t :: 0 <= t < |keys| ==> es[t] == Entry(p, keys[t])
  {
    if keys == [] then [] else Tag(p, keys[..|keys| - 1]) + [Entry(p, keys[|keys| - 1])]
  }

  /** `data.values()` for one shard file: every stored feature exactly once. `keys` says
      which job id each value was stored under; the order of the keys is not modelled. */
  method ShardValues(data: Shard) returns (values: seq<Feature>, ghost keys: seq<string>)
    ensures |values| == |keys|
    ensures Distinct(keys)
    ensures forall j :: j in data <==> j in keys
    ensures forall t :: 0 <= t < |keys| ==> keys[t] in data && values[t] == data[keys[t]]
  {
    values, keys := [], [];
    var rest := data;
    while rest != map[]
      invariant |values| == |keys|
      invariant Distinct(keys)
      invariant forall j :: j in data <==> j in keys || j in rest
      invariant forall j :: j in rest ==> j !in keys && rest[j] == data[j]
      invariant forall t :: 0 <= t < |keys| ==> keys[t] in data && values[t] == data[keys[t]]
      decreases rest.Keys
    {
      var j :| j in rest;
      DistinctAppend(keys, j);
      values := values + [rest[j]];
      keys := keys + [j];
      rest := rest - {j};
    }
  }

  /** Each loaded feature is the stored feature its entry names, from one of the first `i`
      files of the listing. */
  ghost predicate EntriesValid(store: Store, listing: seq<ShardPath>, i: nat,
                               features: seq<Feature>, origin: seq<Entry>)
  {
    && |features| == |origin|
    && forall t :: 0 <= t < |origin| ==>
         && Stored(store, origin[t]) && origin[t].path in listing
         && IndexIn(listing, origin[t].path) < i
         && features[t] == store[origin[t].path][origin[t].id]
  }

  /** Every feature stored in the first `i` files of the listing has an entry. */
  ghost predicate CoversFiles(store: Store, listing: seq<ShardPath>, i: nat, origin: seq<Entry>)
  {
    forall s, j :: 0 <= s < i && s < |listing| && listing[s] in store && j in store[listing[s]] ==>
      Entry(listing[s], j) in origin
  }

  /** The entries come file by file, in listing order. */
  ghost predicate FileOrdered(listing: seq<ShardPath>, origin: seq<Entry>)
  {
    forall s, t :: 0 <= s < t < |origin| && origin[s].path in listing && origin[t].path in listing ==>
      IndexIn(listing, origin[s].path) <= IndexIn(listing, origin[t].path)
  }

  /** The loader's state after the first `i` files of the listing: `features` holds exactly
      the features stored in those files, each once, file by file in listing order, and
      `origin` says where each one came from. */
  ghost predicate LoadedUpTo(store: Store, listing: seq<ShardPath>, i: nat,
                             features: seq<Feature>, origin: seq<Entry>)
  {
    && i <= |listing|
    && EntriesValid(store, listing, i, features, origin)
    && Distinct(origin)
    && CoversFiles(store, listing, i, origin)
    && FileOrdered(listing, origin)
  }

  /** The entries of file `i`'s keys name its stored features. */
  lemma EntriesValidStep(store: Store, listing: seq<ShardPath>, i: nat, features: seq<Feature>, origin: seq<Entry>,
                         values: seq<Feature>, keys: seq<string>)
    requires Distinct(listing) && i < |listing| && listing[i] in store
    requires EntriesValid(store, listing, i, features, origin)
    requires |values| == |keys|
    requires forall t :: 0 <= t < |keys| ==> keys[t] in store[listing[i]] && values[t] == store[listing[i]][keys[t]]
    ensures EntriesValid(store, listing, i + 1, features + values, origin + Tag(listing[i], keys))
  {
    var block := Tag(listing[i], keys);
    var origin2 := origin + block;
    var features2 := features + values;
    IndexInDistinct(listing, i);
    forall t | 0 <= t < |origin2|
      ensures && Stored(store, origin2[t]) && origin2[t].path in listing
              && IndexIn(listing, origin2[t].path) < i + 1
              && features2[t] == store[origin2[t].path][origin2[t].id]
    {
      if t < |origin| {
        assert origin2[t] == origin[t] && features2[t] == features[t];
      } else {
        assert origin2[t] == block[t - |origin|] && features2[t] == values[t - |origin|];
      }
    }
  }

  /** Entries of distinct files are distinct, so appending a block of a new file to distinct
      entries keeps them distinct. */
  lemma DistinctStep(listing: seq<ShardPath>, i: nat, origin: seq<Entry>, keys: seq<string>)
    requires Distinct(listing) && i < |listing| && Distinct(origin) && Distinct(keys)
    requires forall t :: 0 <= t < |origin| ==> origin[t].path in listing && IndexIn(listing, origin[t].path) < i
    ensures Distinct(origin + Tag(listing[i], keys))
  {
    IndexInDistinct(listing, i);
    var block := Tag(listing[i], keys);
    var origin2 := origin + block;
    forall s, t | 0 <= s < t < |origin2| ensures origin2[s] != origin2[t] {
      if t < |origin| {
        assert origin2[s] == origin[s] && origin2[t] == origin[t];
      } else if s < |origin| {
        assert origin2[s] == origin[s] && origin2[t] == block[t - |origin|];
      } else {
        assert origin2[s] == block[s - |origin|] && origin2[t] == block[t - |origin|];
      }
    }
  }

  /** File `i`'s features are covered once its keys' entries are appended. */
  lemma CoversStep(store: Store, listing: seq<ShardPath>, i: nat, origin: seq<Entry>, keys: seq<string>)
    requires i < |listing| && listing[i] in store
    requires CoversFiles(store, listing, i, origin)
    requires forall j :: j in store[listing[i]] <==> j in keys
    ensures CoversFiles(store, listing, i + 1, origin + Tag(listing[i], keys))
  {
    var block := Tag(listing[i], keys);
    var origin2 := origin + block;
    forall s, j | 0 <= s < i + 1 && s < |listing| && listing[s] in store && j in store[listing[s]]
      ensures Entry(listing[s], j) in origin2
    {
      if s == i {
        var u :| 0 <= u < |keys| && keys[u] == j;
        assert origin2[|origin| + u] == block[u];
      } else {
        assert Entry(listing[s], j) in origin;
      }
    }
  }

  /** A block of file `i` after entries of earlier files keeps the listing order. */
  lemma OrderedStep(listing: seq<ShardPath>, i: nat, origin: seq<Entry>, keys: seq<string>)
    requires Distinct(listing) && i < |listing|
    requires FileOrdered(listing, origin)
    requires forall t :: 0 <= t < |origin| ==> origin[t].path in listing && IndexIn(listing, origin[t].path) < i
    ensures FileOrdered(listing, origin + Tag(listing[i], keys))
  {
    IndexInDistinct(listing, i);
    var block := Tag(listing[i], keys);
    var origin2 := origin + block;
    forall s, t | 0 <= s < t < |origin2| && origin2[s].path in listing && origin2[t].path in listing
      ensures IndexIn(listing, origin2[s].path) <= IndexIn(listing, origin2[t].path)
    {
      if t < |origin| {
        assert origin2[s] == origin[s] && origin2[t] == origin[t];
      } else if s < |origin| {
        assert origin2[s] == origin[s] && origin2[t] == block[t - |origin|];
      } else {
        assert origin2[s] == block[s - |origin|] && origin2[t] == block[t - |origin|];
      }
    }
  }

  /** The contents of file `i` of the listing, appended. */
  lemma LoadStep(store: Store, listing: seq<ShardPath>, i: nat, features: seq<Feature>, origin: seq<Entry>,
                 values: seq<Feature>, keys: seq<string>)
    requires Distinct(listing) && i < |listing| && listing[i] in store
    requires LoadedUpTo(store, listing, i, features, origin)
    requires |values| == |keys| && Distinct(keys)
    requires forall j :: j in store[listing[i]] <==> j in keys
    requires forall t :: 0 <= t < |keys| ==> keys[t] in store[listing[i]] && values[t] == store[listing[i]][keys[t]]
    ensures LoadedUpTo(store, listing, i + 1, features + values, origin + Tag(listing[i], keys))
  {
    EntriesValidStep(store, listing, i, features, origin, values, keys);
    DistinctStep(listing, i, origin, keys);
    CoversStep(store, listing, i, origin, keys);
    OrderedStep(listing, i, origin, keys);
  }

  /** The loader of map.py:19-23. `listing` is the result of the sorted glob: every shard file
      of the store, each once, in sorted path order. The result holds every stored feature
      exactly once, grouped by file and the files in listing order. */
  method LoadFeatures(store: Store, listing: seq<ShardPath>) returns (features: seq<Feature>, ghost origin: seq<Entry>)
    requires Distinct(listing)
    requires forall p :: p in store <==> p in listing
    ensures |features| == |origin|
    ensures forall t :: 0 <= t < |origin| ==>
              Stored(store, origin[t]) && origin[t].path in listing
              && features[t] == store[origin[t].path][origin[t].id]
    ensures Distinct(origin)
    ensures forall p, j :: p in store && j in store[p] ==> Entry(p, j) in origin
    ensures forall s, t :: 0 <= s < t < |origin| ==>
              IndexIn(listing, origin[s].path) <= IndexIn(listing, origin[t].path)
  {
    features, origin := [], [];
    for i := 0 to |listing|
      invariant LoadedUpTo(store, listing, i, features, origin)
    {
      var values;
      ghost var keys;
      values, keys := ShardValues(store[listing[i]]);
      LoadStep(store, listing, i, features, origin, values, keys);
      features := features + values;
      origin := origin + Tag(listing[i], keys);
    }
    forall p, j | p in store && j in store[p] ensures Entry(p, j) in origin {
      IndexInDistinct(listing, IndexIn(listing, p));
    }
  }

  /** In a well-formed store the loaded features carry distinct ids, and each carries the id
      it was stored under. */
  lemma LoadedIdsDistinct(store: Store, features: seq<Feature>, origin: seq<Entry>)
    requires WellFormed(store)
    requires |features| == |origin| && Distinct(origin)
    requires forall t :: 0 <= t < |origin| ==>
               Stored(store, origin[t]) && features[t] == store[origin[t].path][origin[t].id]
    ensures forall t :: 0 <= t < |features| ==> IdOf(features[t]) == origin[t].id
    ensures forall s, t :: 0 <= s < t < |features| ==> IdOf(features[s]) != IdOf(features[t])
  {
    forall t | 0 <= t < |features| ensures IdOf(features[t]) == origin[t].id && JobPath(origin[t].id) == origin[t].path {
      StoredWellFormed(store, origin[t]);
    }
    forall s, t | 0 <= s < t < |features| ensures IdOf(features[s]) != IdOf(features[t]) {
      assert origin[s] != origin[t];
    }
  }

  /** A stored feature of a well-formed store sits under its own id, in its id's file. */
  lemma StoredWellFormed(store: Store, e: Entry)
    requires WellFormed(store) && Stored(store, e)
    ensures JobPath(e.id) == e.path && IdOf(store[e.path][e.id]) == e.id
  {
    assert JobPath(e.id) == e.path && IdOf(store[e.path][e.id]) == e.id && Normalised(store[e.path][e.id]);
  }
}
