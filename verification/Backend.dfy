// Reading ledger objects through the cache and the database
// (src/backend/BackendInterface.cpp, over the queries of src/backend/CassandraBackend.cpp).
module Backends {
  import opened Wrappers
  import opened Tables
  import opened Ledger
  import opened SimpleCaches
  import opened Pages

  // doFetchLedgerObject: an absent row and an empty one both mean no object.
  function DbObject(objects: Table<Key, Blob>, key: Key, ledger: nat): Blob {
    match SelectLatest(objects, key, ledger)
    case None => Empty
    case Some(blob) => blob
  }

  // doFetchSuccessorKey: the end of the ledger is stored as LAST_KEY.
  function DbSuccessor(successor: Table<Key, Key>, key: Key, ledger: nat): Option<Key> {
    match SelectLatest(successor, key, ledger)
    case None => None
    case Some(next) => if next == LAST_KEY then None else Some(next)
  }

  // fetchLedgerObject: the cache if it knows, and the database otherwise.
  function ReadBlob(objects: Table<Key, Blob>, c: CacheState, key: Key, ledger: nat): Blob {
    match Cached(c, key, ledger)
    case Some(blob) => blob
    case None => DbObject(objects, key, ledger)
  }

  // fetchSuccessorKey, likewise.
  function ReadNext(successor: Table<Key, Key>, c: CacheState, key: Key, ledger: nat): Option<Key> {
    match CachedSuccessor(c, key, ledger)
    case Some(found) => Some(found.key)
    case None => DbSuccessor(successor, key, ledger)
  }

  // What the cache or the database says of an object at `ledger` is its value in `state`.
  ghost predicate ObjectsServedBy(objects: Table<Key, Blob>, c: CacheState, state: State, ledger: nat) {
    && Proper(state)
    && (forall k {:trigger DbObject(objects, k, ledger)} :: DbObject(objects, k, ledger) == Lookup(state, k))
    && (forall k {:trigger Cached(c, k, ledger)} :: var b := Cached(c, k, ledger);
          b.Some? ==> b.value != Empty && b.value == Lookup(state, k))
  }

  // Successors of live keys, and of the start of the ledger, are the true ones.
  ghost predicate SuccessorsServedBy(successor: Table<Key, Key>, c: CacheState, keys: set<Key>, ledger: nat) {
    && FIRST_KEY !in keys && LAST_KEY !in keys
    && (forall k {:trigger DbSuccessor(successor, k, ledger)} | k == FIRST_KEY || k in keys ::
          DbSuccessor(successor, k, ledger) == NextKey(keys, k))
    && (forall k {:trigger CachedSuccessor(c, k, ledger)} :: var s := CachedSuccessor(c, k, ledger);
          s.Some? ==> Some(s.value.key) == NextKey(keys, k))
  }

  class Backend {
    var objects: Table<Key, Blob>
    var successor: Table<Key, Key>
    var range: Option<LedgerRange>
    const cache: SimpleCache

    constructor ()
      ensures fresh(cache) && cache.State() == EMPTY_CACHE
      ensures objects == map[] && successor == map[] && range == None
    {
      objects, successor, range := map[], map[], None;
      cache := new SimpleCache();
    }

    ghost predicate ServesObjects(state: State, ledger: nat)
      reads this, cache
    {
      ObjectsServedBy(objects, cache.State(), state, ledger)
    }

    ghost predicate ServesSuccessors(keys: set<Key>, ledger: nat)
      reads this, cache
    {
      SuccessorsServedBy(successor, cache.State(), keys, ledger)
    }

    method FetchLedgerObject(key: Key, ledger: nat, ghost state: State) returns (blob: Option<Blob>)
      requires ServesObjects(state, ledger)
      ensures blob == if key in state then Some(state[key]) else None
      ensures ReadBlob(objects, cache.State(), key, ledger) == if blob.Some? then blob.value else Empty
    {
      var cached := cache.Get(key, ledger);
      if cached.Some? {
        return cached;
      }
      var row := DbObject(objects, key, ledger);
      blob := if row == Empty then None else Some(row);
    }

    method AskCache(key: Key, ledger: nat, ghost state: State) returns (cached: Option<Blob>)
      requires ServesObjects(state, ledger)
      ensures cached == Cached(cache.State(), key, ledger)
      ensures cached.Some? ==> cached.value != Empty && cached.value == Lookup(state, key)
    {
      cached := cache.Get(key, ledger);
    }

    // Cache hits, with empty places for the misses.
    method ReadCache(keys: seq<Key>, ledger: nat, ghost state: State) returns (results: seq<Blob>, misses: seq<Key>)
      requires ServesObjects(state, ledger)
      ensures |results| == |keys| && misses == Holes(keys, results)
      ensures forall k | 0 <= k < |keys| && results[k] != Empty :: results[k] == Lookup(state, keys[k])
      // An object that the cache has is not asked for again.
      ensures forall k | 0 <= k < |keys| :: results[k] == Empty <==> Cached(cache.State(), keys[k], ledger) == None
    {
      results, misses := [], [];
      ghost var c := cache.State();
      for i := 0 to |keys|
        invariant |results| == i && misses == Holes(keys, results)
        invariant forall k | 0 <= k < i && results[k] != Empty :: results[k] == Lookup(state, keys[k])
        invariant forall k | 0 <= k < i :: results[k] == Empty <==> Cached(c, keys[k], ledger) == None
      {
        var cached := AskCache(keys[i], ledger, state);
        var blob := if cached.Some? then cached.value else Empty;
        HoleAt(keys, results, blob);
        if cached.None? {
          misses := misses + [keys[i]];
        }
        results := results + [blob];
      }
    }

    // The empty places are filled from the database, in order.
    method FetchLedgerObjects(keys: seq<Key>, ledger: nat, ghost state: State) returns (results: seq<Blob>)
      requires ServesObjects(state, ledger)
      ensures results == seq(|keys|, i requires 0 <= i < |keys| => Lookup(state, keys[i]))
    {
      var misses;
      results, misses := ReadCache(keys, ledger, state);
      if |misses| > 0 {
        var table := objects;
        var objs := seq(|misses|, i requires 0 <= i < |misses| => DbObject(table, misses[i], ledger));
        results := FillHoles(keys, results, objs, state);
      } else {
        NoHoles(keys, results);
      }
    }

    method FetchSuccessorKey(key: Key, ledger: nat, ghost keys: set<Key>) returns (next: Option<Key>)
      requires ServesSuccessors(keys, ledger)
      ensures key == FIRST_KEY || key in keys ==> next == NextKey(keys, key)
      ensures next == ReadNext(successor, cache.State(), key, ledger)
    {
      var cached := cache.GetSuccessor(key, ledger);
      if cached.Some? {
        return Some(cached.value.key);
      }
      next := DbSuccessor(successor, key, ledger);
    }

    // Successors from `start` on, until the page is full or the ledger ends.
    method ListKeys(start: Key, ledger: nat, limit: nat, ghost keys: set<Key>)
      returns (listed: seq<Key>, reachedEnd: bool)
      requires ServesSuccessors(keys, ledger)
      requires start == FIRST_KEY || start in keys
      ensures listed == PageKeys(keys, start, limit)
      ensures reachedEnd <==> |KeysAfter(keys, start)| < limit
    {
      listed, reachedEnd := [], false;
      ghost var after := KeysAfter(keys, start);
      while |listed| < limit && !reachedEnd
        invariant |listed| <= limit && |listed| <= |after| && listed == after[..|listed|]
        invariant reachedEnd ==> |listed| == |after| < limit
        decreases limit - |listed|, !reachedEnd
      {
        var current := if |listed| > 0 then listed[|listed| - 1] else start;
        NextInList(keys, start, |listed|);
        var next := FetchSuccessorKey(current, ledger, keys);
        if next.None? {
          reachedEnd := true;
        } else {
          listed := listed + [next.value];
        }
      }
    }

    // Out of order, keys come from the newest ledger; objects come from `ledger` either way.
    method FetchLedgerPage(
      cursor: Option<Key>, ledger: nat, limit: nat, outOfOrder: bool,
      ghost keys: set<Key>, ghost state: State)
      returns (page: LedgerPage)
      requires outOfOrder ==> range.Some?
      requires ServesObjects(state, ledger)
      requires ServesSuccessors(keys, if outOfOrder then range.value.max else ledger)
      requires cursor.Some? ==> cursor.value in keys
      ensures page == PageOver(keys, state, if cursor.Some? then cursor.value else FIRST_KEY, limit)
    {
      var start := if cursor.Some? then cursor.value else FIRST_KEY;
      var listed, reachedEnd := ListKeys(start, if outOfOrder then range.value.max else ledger, limit, keys);
      var objs := FetchLedgerObjects(listed, ledger, state);
      var found := KeepPresent(listed, objs, state);
      page := LedgerPage(found, if |listed| > 0 && !reachedEnd then Some(listed[|listed| - 1]) else None);
    }
  }

  // The keys whose results are still empty, in order.
  ghost function Holes(keys: seq<Key>, results: seq<Blob>): seq<Key>
    requires |results| <= |keys|
  {
    if results == [] then []
    else
      var last := |results| - 1;
      Holes(keys, results[..last]) + if results[last] == Empty then [keys[last]] else []
  }

  lemma HoleAt(keys: seq<Key>, results: seq<Blob>, blob: Blob)
    requires |results| < |keys|
    ensures Holes(keys, results + [blob]) == Holes(keys, results) + if blob == Empty then [keys[|results|]] else []
  {
    assert (results + [blob])[..|results|] == results;
  }

  lemma {:induction false} HolesUpTo(keys: seq<Key>, results: seq<Blob>, n: nat)
    requires n <= |results| <= |keys|
    ensures Holes(keys, results[..n]) <= Holes(keys, results)
    decreases |results|
  {
    if n < |results| {
      assert results[..|results| - 1][..n] == results[..n];
      HolesUpTo(keys, results[..|results| - 1], n);
    } else {
      assert results[..n] == results;
    }
  }

  lemma {:induction false} NoHoles(keys: seq<Key>, results: seq<Blob>)
    requires |results| <= |keys| && Holes(keys, results) == []
    ensures forall k | 0 <= k < |results| :: results[k] != Empty
  {
    if results != [] {
      NoHoles(keys, results[..|results| - 1]);
    }
  }

  // `objs` holds what belongs in the empty places, in order.
  method FillHoles(keys: seq<Key>, sparse: seq<Blob>, objs: seq<Blob>, ghost state: State)
    returns (results: seq<Blob>)
    requires |sparse| == |keys| && |objs| == |Holes(keys, sparse)|
    requires forall j | 0 <= j < |objs| :: objs[j] == Lookup(state, Holes(keys, sparse)[j])
    requires forall k | 0 <= k < |keys| && sparse[k] != Empty :: sparse[k] == Lookup(state, keys[k])
    ensures results == seq(|keys|, i requires 0 <= i < |keys| => Lookup(state, keys[i]))
  {
    results := sparse;
    var j := 0;
    for i := 0 to |results|
      invariant |results| == |keys| && j == |Holes(keys, sparse[..i])|
      invariant forall k | 0 <= k < i :: results[k] == Lookup(state, keys[k])
      invariant results[i..] == sparse[i..]
    {
      assert results[i] == results[i..][0] == sparse[i];
      assert sparse[..i + 1][..i] == sparse[..i];
      HolesUpTo(keys, sparse, i + 1);
      if results[i] == Empty {
        results := results[i := objs[j]];
        j := j + 1;
      }
      assert results[i + 1..] == sparse[i..][1..];
    }
  }

  // Deleted objects are dropped from the page.
  method KeepPresent(keys: seq<Key>, objs: seq<Blob>, ghost state: State) returns (found: seq<LedgerObject>)
    requires objs == seq(|keys|, i requires 0 <= i < |keys| => Lookup(state, keys[i]))
    ensures found == Present(ObjectsAt(state, keys))
  {
    found := [];
    ghost var all := ObjectsAt(state, keys);
    for i := 0 to |objs|
      invariant found == Present(all[..i])
    {
      assert all[..i + 1][..i] == all[..i];
      if objs[i] != Empty {
        found := found + [LedgerObject(keys[i], objs[i])];
      }
    }
    assert all[..|objs|] == all;
  }
}
