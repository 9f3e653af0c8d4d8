// Downloading a whole ledger over several marker ranges at once
// (src/etl/ETLHelpers.h, getMarkers; src/etl/ETLSource.cpp, AsyncCallData and loadInitialLedger).
module InitialLoad {
  import opened Wrappers
  import opened Sequences
  import opened Tables
  import opened Ledger
  import opened SimpleCaches
  import opened Pages
  import opened Backends
  import opened BuildLedger
  import opened BookOffers
  import opened Successors
  import opened Digits
  import opened InitialRanges
  import opened BookIndex
  import opened Refinement

  /* Marker ranges */

  lemma StepFits(n: nat, i: nat, step: nat)
    requires n > 0 && step == 256 / n && i < n
    ensures i * step + step <= 256
  {
    DivMod(256, n);
    Gap(step, i, n);
  }

  // Adding the increment does not wrap around before the last marker.
  lemma NextByte(n: nat, i: nat, base: Byte, incr: Byte)
    requires 1 <= n <= 256 && i < n && incr == (256 / n) % 256 && base == i * (256 / n)
    ensures i + 1 < n ==> (base + incr) % 256 == (i + 1) * (256 / n)
  {
    var step := 256 / n;
    if i + 1 < n {
      StepFits(n, i, step);
      StepFits(n, i + 1, step);
      assert (i + 1) * step == i * step + step;
    }
  }

  // Markers are strictly increasing, from zero, equally far apart, and hold only a first byte.
  method GetMarkers(numMarkers: nat) returns (markers: seq<Key>)
    requires 1 <= numMarkers <= 256
    ensures |markers| == numMarkers && Markers(markers) && Spaced(markers, 256 / numMarkers)
  {
    var incr: Byte := (256 / numMarkers) % 256;
    ghost var step := 256 / numMarkers;
    markers := [];
    var base: Byte := 0;
    for i := 0 to numMarkers
      invariant |markers| == i && Markers(markers) && Spaced(markers, step)
      invariant i < numMarkers ==> base == i * step
    {
      AddMarker(markers, base, step);
      markers := markers + [Marker(base)];
      NextByte(numMarkers, i, base, incr);
      base := (base + incr) % 256;
    }
  }

  // The i-th marker's first byte.
  ghost predicate Spaced(markers: seq<Key>, step: nat) {
    forall i | 0 <= i < |markers| :: TopByte(markers[i]) == i * step
  }

  ghost predicate Markers(markers: seq<Key>) {
    && (|markers| > 0 ==> markers[0] == FIRST_KEY)
    && (forall i | 0 <= i < |markers| :: Aligned(markers[i]))
    && (forall i, j | 0 <= i < j < |markers| :: markers[i] < markers[j])
  }

  predicate Aligned(marker: Key) {
    marker == Marker(TopByte(marker))
  }

  lemma StepsGrow(i: nat, j: nat, step: nat)
    requires i < j && step > 0
    ensures i * step < j * step
  {
    Gap(step, i, j);
  }

  lemma MarkerByte(p: Byte)
    ensures TopByte(Marker(p)) == p && Aligned(Marker(p))
  {
  }

  lemma AddMarker(markers: seq<Key>, base: Byte, step: nat)
    requires Markers(markers) && Spaced(markers, step) && base == |markers| * step && step > 0
    ensures Markers(markers + [Marker(base)]) && Spaced(markers + [Marker(base)], step)
  {
    MarkerByte(base);
    forall i | 0 <= i < |markers| ensures markers[i] < Marker(base) {
      StepsGrow(i, |markers|, step);
      assert TopByte(markers[i]) == i * step && Aligned(markers[i]);
    }
  }

  // One response: which range it belongs to and the marker it returns.
  datatype Arrival = Arrival(call: nat, marker: Option<Key>)

  // It ends its range: the server has no more, or has reached the next range.
  ghost predicate LastOfRange(markers: seq<Key>, i: nat, a: Arrival) {
    && i < |markers| && a.call == i
    && (a.marker.None? || (i + 1 < |markers| && markers[i + 1] <= a.marker.value < LAST_KEY))
  }

  ghost predicate RangeEnded(markers: seq<Key>, arrivals: seq<Arrival>, i: nat) {
    exists n :: 0 <= n < |arrivals| && LastOfRange(markers, i, arrivals[n])
  }

  // The ranges done are those that one of the responses so far has ended.
  ghost predicate DoneAsArrived(calls: seq<Call>, markers: seq<Key>, arrivals: seq<Arrival>) {
    |calls| == |markers| && forall i | 0 <= i < |calls| :: calls[i].done <==> RangeEnded(markers, arrivals, i)
  }

  ghost predicate DoneAfter(calls: seq<Call>, calls': seq<Call>, markers: seq<Key>, a: Arrival) {
    && |calls| == |calls'| == |markers|
    && forall i | 0 <= i < |calls'| :: calls'[i].done <==> calls[i].done || LastOfRange(markers, i, a)
  }

  lemma ArrivesNext(calls: seq<Call>, calls': seq<Call>, markers: seq<Key>, arrivals: seq<Arrival>, n: nat)
    requires n < |arrivals| && DoneAsArrived(calls, markers, arrivals[..n]) && DoneAfter(calls, calls', markers, arrivals[n])
    ensures DoneAsArrived(calls', markers, arrivals[..n + 1])
  {
    assert arrivals[..n + 1] == arrivals[..n] + [arrivals[n]];
    forall i | 0 <= i < |calls'|
      ensures RangeEnded(markers, arrivals[..n + 1], i) <==>
        RangeEnded(markers, arrivals[..n], i) || LastOfRange(markers, i, arrivals[n])
    {
      assert forall m | 0 <= m < n :: arrivals[..n + 1][m] == arrivals[..n][m];
      assert arrivals[..n + 1][n] == arrivals[n];
    }
  }

  // Nothing is done by a response that is not waited for.
  lemma IgnoredEndsNothing(calls: seq<Call>, markers: seq<Key>, a: Arrival)
    requires RangesOf(calls, markers) && Tiled(calls)
    requires a.call < |calls| && !calls[a.call].done ==>
      a.marker.Some? && !(calls[a.call].cursor <= a.marker.value < LAST_KEY)
    ensures DoneAfter(calls, calls, markers, a)
  {
    forall i | 0 <= i < |calls| ensures LastOfRange(markers, i, a) ==> calls[i].done {
      if i + 1 < |calls| {
        assert calls[i].end == calls[i + 1].marker == markers[i + 1];
      }
    }
  }

  lemma AdvanceEnds(
    source: State, calls: seq<Call>, calls': seq<Call>, markers: seq<Key>, a: Arrival)
    requires Proper(source) && RangesOf(calls, markers) && Tiled(calls) && a.call < |calls| && !calls[a.call].done
    requires a.marker.Some? ==> calls[a.call].cursor <= a.marker.value < LAST_KEY
    requires calls' == calls[a.call := Advance(source, calls[a.call], a.marker)]
    ensures DoneAfter(calls, calls', markers, a)
  {
    var i := a.call;
    if i + 1 < |calls| {
      assert calls[i].end == calls[i + 1].marker == markers[i + 1];
    }
    assert calls'[i].done <==> !More(calls[i], a.marker);
    assert calls'[i].done <==> LastOfRange(markers, i, a);
  }

  class Loader {
    const backend: Backend
    const ledger: nat
    var calls: seq<Call>

    constructor (b: Backend, number: nat, markers: seq<Key>)
      ensures backend == b && ledger == number
      ensures calls == Ranges(markers)
    {
      backend, ledger := b, number;
      var todo: seq<Call> := [];
      for i := 0 to |markers|
        invariant todo == Ranges(markers)[..i]
      {
        var nextPrefix: Byte, end := 0, LAST_KEY;
        if i + 1 < |markers| {
          nextPrefix, end := TopByte(markers[i + 1]), markers[i + 1];
        }
        todo := todo + [Call(markers[i], nextPrefix, end, markers[i], None, false)];
      }
      calls := todo;
    }

    // Writes the objects of a response; `keys` are those that belong to the range.
    method WriteObjects(
      call: Call, more: bool, objs: seq<LedgerObject>, ghost source: State, ghost keys: seq<Key>,
      ghost all: seq<Key>)
      returns (lastKey: Option<Key>, cacheUpdates: seq<LedgerObject>)
      requires |objs| == |all| && keys <= all
      requires forall j | 0 <= j < |all| :: objs[j] == LedgerObject(all[j], Lookup(source, all[j]))
      requires forall j | 0 <= j < |all| :: all[j] < LAST_KEY && (j >= |keys| <==> Skips(call, more, all[j]))
      requires EndsAtPrefix(call)
      modifies backend
      ensures lastKey == LastOf(call.lastKey, keys) && cacheUpdates == ObjectsAt(source, keys)
      ensures backend.successor == Insert(old(backend.successor), ledger, Links(call.lastKey, keys))
      ensures backend.objects == Insert(old(backend.objects), ledger, StateRows(source, keys))
      ensures backend.range == old(backend.range)
    {
      lastKey, cacheUpdates := call.lastKey, [];
      ghost var done := [];
      ghost var successor, objects := backend.successor, backend.objects;
      for n := 0 to |objs|
        invariant done == Take(keys, n)
        invariant lastKey == LastOf(call.lastKey, done) && cacheUpdates == ObjectsAt(source, done)
        invariant backend.successor == Insert(successor, ledger, Links(call.lastKey, done))
        invariant backend.objects == Insert(objects, ledger, StateRows(source, done))
        invariant backend.range == old(backend.range)
      {
        var obj := objs[n];
        TakeStep(keys, all, n);
        FirstByteTellsEnd(obj.key, call.nextPrefix);
        if !more && call.nextPrefix != 0 && TopByte(obj.key) >= call.nextPrefix {
          continue;
        }
        LinkStep(successor, ledger, call.lastKey, done, obj.key);
        StateStep(source, objects, ledger, done, obj.key);
        done := done + [obj.key];
        cacheUpdates := cacheUpdates + [obj];
        if lastKey.Some? {
          backend.successor := backend.successor[(lastKey.value, ledger) := obj.key];
        }
        lastKey := Some(obj.key);
        backend.objects := backend.objects[(obj.key, ledger) := obj.blob];
      }
    }

    // One response of one range.
    method Process(i: nat, resp: Response, ghost source: State)
      requires i < |calls| && !calls[i].done && EndsAtPrefix(calls[i])
      requires Proper(source) && HonestResponse(source, calls[i].cursor, resp)
      requires !backend.cache.disabled && ledger > backend.cache.latest ==> backend.cache.latest == 0
      modifies this, backend, backend.cache
      ensures calls == old(calls)[i := Advance(source, old(calls[i]), resp.marker)]
      ensures var keys := Kept(source, old(calls[i]), resp.marker);
        && backend.successor == Insert(old(backend.successor), ledger, Links(old(calls[i]).lastKey, keys))
        && backend.objects == Insert(old(backend.objects), ledger, StateRows(source, keys))
        && backend.cache.State() == Updated(old(backend.cache.State()), ObjectsAt(source, keys), ledger, false)
      ensures backend.range == old(backend.range)
    {
      var call := calls[i];
      var more := true;
      if resp.marker.None? {
        more := false;
      }
      var prefix := if resp.marker.Some? then TopByte(resp.marker.value) else 0;
      if call.nextPrefix != 0 && prefix >= call.nextPrefix {
        more := false;
      }
      if resp.marker.Some? {
        FirstByteTellsEnd(resp.marker.value, call.nextPrefix);
      }
      KeptIsPrefix(source, call, resp.marker);
      ghost var all := Between(source.Keys, call.cursor, KeyOr(resp.marker, LAST_KEY));
      var lastKey, cacheUpdates := WriteObjects(call, more, resp.objects, source, Kept(source, call, resp.marker), all);
      backend.cache.Update(cacheUpdates, ledger, false);
      calls := calls[i := if more then call.(cursor := resp.marker.value, lastKey := lastKey)
                          else call.(done := true, lastKey := lastKey)];
    }

    ghost predicate InProgress(state: State, markers: seq<Key>)
      reads this, backend, backend.cache
    {
      && RangesOf(calls, markers)
      && Loading(state, ledger, calls, backend.objects, backend.successor, backend.cache.State())
    }

    // A response, if it is one the range is waiting for; the range's last key when it is done.
    method Receive(a: Arrival, source: State, ghost markers: seq<Key>) returns (edgeKey: Option<Key>)
      requires ledger > 0 && Proper(source) && InProgress(Downloaded(source, markers), markers)
      modifies this, backend, backend.cache
      ensures InProgress(Downloaded(source, markers), markers)
      ensures |calls| == |old(calls)| && forall i | 0 <= i < |calls| ::
        calls[i] == old(calls)[i] || (calls[i].done ==> edgeKey == calls[i].lastKey)
      ensures DoneAfter(old(calls), calls, markers, a)
      ensures edgeKey.Some? ==> edgeKey.value in Downloaded(source, markers)
    {
      if a.call >= |calls| || calls[a.call].done
         || (a.marker.Some? && !(calls[a.call].cursor <= a.marker.value < LAST_KEY)) {
        IgnoredEndsNothing(calls, markers, a);
        return None;
      }
      edgeKey := Accept(a, source, markers);
    }

    // One that it is waiting for.
    method Accept(a: Arrival, source: State, ghost markers: seq<Key>) returns (edgeKey: Option<Key>)
      requires ledger > 0 && Proper(source) && InProgress(Downloaded(source, markers), markers)
      requires a.call < |calls| && !calls[a.call].done
      requires a.marker.Some? ==> calls[a.call].cursor <= a.marker.value < LAST_KEY
      modifies this, backend, backend.cache
      ensures InProgress(Downloaded(source, markers), markers)
      ensures |calls| == |old(calls)| && forall i | 0 <= i < |calls| ::
        calls[i] == old(calls)[i] || (calls[i].done ==> edgeKey == calls[i].lastKey)
      ensures DoneAfter(old(calls), calls, markers, a)
      ensures edgeKey.Some? ==> edgeKey.value in Downloaded(source, markers)
    {
      var call := calls[a.call];
      var resp := Response(ObjectsAt(source, Between(source.Keys, call.cursor, KeyOr(a.marker, LAST_KEY))), a.marker);
      ProcessKeeps(a.call, resp, source, markers);
      edgeKey := if calls[a.call].done then calls[a.call].lastKey else None;
    }

    method ProcessKeeps(i: nat, resp: Response, ghost source: State, ghost markers: seq<Key>)
      requires ledger > 0 && Proper(source) && InProgress(Downloaded(source, markers), markers)
      requires i < |calls| && !calls[i].done && EndsAtPrefix(calls[i])
      requires HonestResponse(source, calls[i].cursor, resp)
      modifies this, backend, backend.cache
      ensures InProgress(Downloaded(source, markers), markers)
      ensures calls == old(calls)[i := Advance(source, old(calls[i]), resp.marker)]
      ensures calls[i].lastKey.Some? ==> calls[i].lastKey.value in Downloaded(source, markers)
      ensures DoneAfter(old(calls), calls, markers, Arrival(i, resp.marker))
    {
      AdvanceEnds(
        source, calls, calls[i := Advance(source, calls[i], resp.marker)], markers, Arrival(i, resp.marker));
      ResponseKeepsLoading(
        source, markers, ledger, calls, i, resp.marker, backend.objects, backend.successor, backend.cache.State());
      Process(i, resp, source);
    }

    // What holds after these responses.
    ghost predicate Downloading(state: State, markers: seq<Key>, arrivals: seq<Arrival>, edgeKeys: seq<Key>)
      reads this, backend, backend.cache
    {
      && InProgress(state, markers)
      && DoneAsArrived(calls, markers, arrivals)
      && EdgesNoted(calls, edgeKeys)
      && forall k | k in edgeKeys :: k in state
    }

    method ReceiveNext(
      source: State, arrivals: seq<Arrival>, n: nat, edgeKeys: seq<Key>, ghost markers: seq<Key>)
      returns (edgeKeys': seq<Key>)
      requires ledger > 0 && Proper(source) && n < |arrivals|
      requires Downloading(Downloaded(source, markers), markers, arrivals[..n], edgeKeys)
      modifies this, backend, backend.cache
      ensures Downloading(Downloaded(source, markers), markers, arrivals[..n + 1], edgeKeys')
    {
      ghost var before := calls;
      var edgeKey := Receive(arrivals[n], source, markers);
      ArrivesNext(before, calls, markers, arrivals, n);
      edgeKeys' := if edgeKey.Some? then edgeKeys + [edgeKey.value] else edgeKeys;
    }

    // Every response, in the order in which they arrive.
    method Download(source: State, arrivals: seq<Arrival>, ghost markers: seq<Key>) returns (edgeKeys: seq<Key>)
      requires ledger > 0 && Proper(source) && InProgress(Downloaded(source, markers), markers)
      requires forall i | 0 <= i < |calls| :: !calls[i].done
      modifies this, backend, backend.cache
      ensures Downloading(Downloaded(source, markers), markers, arrivals, edgeKeys)
    {
      edgeKeys := [];
      for n := 0 to |arrivals|
        invariant Downloading(Downloaded(source, markers), markers, arrivals[..n], edgeKeys)
      {
        edgeKeys := ReceiveNext(source, arrivals, n, edgeKeys, markers);
      }
      assert arrivals[..|arrivals|] == arrivals;
    }

    method IsFinished(ghost state: State, ghost markers: seq<Key>, ghost arrivals: seq<Arrival>, ghost edgeKeys: seq<Key>)
      returns (finished: bool)
      requires Downloading(state, markers, arrivals, edgeKeys)
      ensures finished <==> forall i | 0 <= i < |calls| :: calls[i].done
      ensures finished <==> forall i | 0 <= i < |markers| :: RangeEnded(markers, arrivals, i)
    {
      finished := forall i | 0 <= i < |calls| :: calls[i].done;
    }

    // All ranges are done: the ledger is served.
    method Complete(edgeKeys: seq<Key>, ghost source: State, ghost markers: seq<Key>)
      requires Proper(source) && InProgress(Downloaded(source, markers), markers) && EdgesNoted(calls, edgeKeys)
      requires forall k | k in edgeKeys :: k in Downloaded(source, markers)
      requires forall i | 0 <= i < |calls| :: calls[i].done
      modifies backend, backend.cache
      ensures Serves(backend, Downloaded(source, markers), ledger)
    {
      ghost var state := Downloaded(source, markers);
      DownloadComplete(
        state, ledger, markers, calls, backend.objects, backend.successor, backend.cache.State(), edgeKeys);
      Finish(edgeKeys, state);
      RowsMakeChain(backend.successor, state.Keys, ledger);
    }

    // After the last response: marks the cache full and completes the list from it.
    method Finish(edgeKeys: seq<Key>, ghost state: State)
      requires Mirrors(Filled(backend.cache.State()), state, ledger) && Proper(state)
      requires TrueRows(backend.successor, state.Keys, ledger)
      requires forall k | k in edgeKeys :: k in state
      requires forall k | k in state && (k, ledger) !in backend.successor :: k in edgeKeys
      modifies backend, backend.cache
      ensures backend.objects == old(backend.objects) && backend.range == old(backend.range)
      ensures backend.cache.State() == Filled(old(backend.cache.State()))
      ensures TrueRows(backend.successor, state.Keys, ledger)
      ensures forall k: Key | k == FIRST_KEY || k in state :: (k, ledger) in backend.successor
    {
      backend.cache.SetFull();
      MirrorReads(backend.cache.State(), state, ledger);
      WriteEdges(edgeKeys, state);
      WriteEnds(state);
    }

    // The key that follows in the cache.
    method NextInCache(key: Key, ghost keys: set<Key>) returns (next: Option<Key>)
      requires ReadsNext(backend.cache.State(), keys, ledger)
      ensures next == if Next(keys, key) == LAST_KEY then None else Some(Next(keys, key))
    {
      var succ := backend.cache.GetSuccessor(key, ledger);
      next := if succ.Some? then Some(succ.value.key) else None;
    }

    // The records between ranges.
    method WriteEdges(edgeKeys: seq<Key>, ghost state: State)
      requires ReadsNext(backend.cache.State(), state.Keys, ledger) && FIRST_KEY !in state && LAST_KEY !in state
      requires TrueRows(backend.successor, state.Keys, ledger)
      requires forall k | k in edgeKeys :: k in state
      requires forall k | k in state && (k, ledger) !in backend.successor :: k in edgeKeys
      modifies backend
      ensures backend.objects == old(backend.objects) && backend.range == old(backend.range)
      ensures TrueRows(backend.successor, state.Keys, ledger)
      ensures forall k | k in state && (k, ledger) !in backend.successor :: Next(state.Keys, k) == LAST_KEY
    {
      for e := 0 to |edgeKeys|
        invariant backend.objects == old(backend.objects) && backend.range == old(backend.range)
        invariant TrueRows(backend.successor, state.Keys, ledger)
        invariant old(backend.successor).Keys <= backend.successor.Keys
        invariant forall j | 0 <= j < e ::
          (edgeKeys[j], ledger) in backend.successor || Next(state.Keys, edgeKeys[j]) == LAST_KEY
      {
        var key := edgeKeys[e];
        AddTrueRow(backend.successor, state.Keys, ledger, key);
        var next := NextInCache(key, state.Keys);
        if next.Some? {
          backend.successor := backend.successor[(key, ledger) := next.value];
        }
      }
    }

    // The record of a book's first directory is guarded by a lookup of the directory itself.
    method WriteBook(dir: LedgerObject)
      modifies backend
      ensures backend.objects == old(backend.objects) && backend.range == old(backend.range)
      ensures var c, base := backend.cache.State(), BookBase(dir.key);
        var first := CachedSuccessor(c, base, ledger);
        backend.successor ==
          if IsBookDir(dir.blob) && Cached(c, dir.key, ledger).None? && first.Some? && first.value.key == dir.key
          then old(backend.successor)[(base, ledger) := dir.key]
          else old(backend.successor)
    {
      if IsBookDir(dir.blob) {
        var base := BookBase(dir.key);
        var itself := backend.cache.Get(dir.key, ledger);
        if itself.None? {
          var succ := backend.cache.GetSuccessor(base, ledger);
          if succ.Some? && succ.value.key == dir.key {
            backend.successor := backend.successor[(base, ledger) := dir.key];
          }
        }
      }
    }

    // Walks the cache: the records at the two ends of the ledger, and those of books.
    method WriteEnds(ghost state: State)
      requires ReadsNext(backend.cache.State(), state.Keys, ledger) && FIRST_KEY !in state && LAST_KEY !in state
      requires TrueRows(backend.successor, state.Keys, ledger)
      requires forall k | k in state && (k, ledger) !in backend.successor :: Next(state.Keys, k) == LAST_KEY
      modifies backend
      ensures backend.objects == old(backend.objects) && backend.range == old(backend.range)
      ensures TrueRows(backend.successor, state.Keys, ledger)
      ensures forall k: Key | k == FIRST_KEY || k in state :: (k, ledger) in backend.successor
    {
      var prev := FIRST_KEY;
      ghost var table := backend.successor;
      while true
        invariant prev == FIRST_KEY || prev in state
        invariant backend.objects == old(backend.objects) && backend.range == old(backend.range)
        invariant TrueRows(backend.successor, state.Keys, ledger)
        invariant table.Keys <= backend.successor.Keys
        invariant prev != FIRST_KEY ==> (FIRST_KEY, ledger) in backend.successor
        decreases Above(state.Keys, prev)
      {
        AddTrueRow(backend.successor, state.Keys, ledger, prev);
        var cur := backend.cache.GetSuccessor(prev, ledger);
        if cur.None? {
          break;
        }
        assert cur.value.key in Above(state.Keys, prev) && cur.value.key !in Above(state.Keys, cur.value.key);
        if prev == FIRST_KEY {
          backend.successor := backend.successor[(prev, ledger) := cur.value.key];
        }
        WriteBook(cur.value);
        prev := cur.value.key;
      }
      EndRow(table, backend.successor, state.Keys, ledger, prev);
      backend.successor := backend.successor[(prev, ledger) := LAST_KEY];
    }
  }

  lemma AddTrueRow(successor: Table<Key, Key>, keys: set<Key>, ledger: nat, key: Key)
    requires TrueRows(successor, keys, ledger) && (key == FIRST_KEY || key in keys)
    ensures TrueRows(successor[(key, ledger) := Next(keys, key)], keys, ledger)
  {
  }

  // Only the greatest key still lacked a record.
  lemma EndRow(before: Table<Key, Key>, successor: Table<Key, Key>, keys: set<Key>, ledger: nat, prev: Key)
    requires TrueRows(successor, keys, ledger) && before.Keys <= successor.Keys && LAST_KEY !in keys
    requires forall k | k in keys && (k, ledger) !in before :: Next(keys, k) == LAST_KEY
    requires (prev == FIRST_KEY || prev in keys) && Next(keys, prev) == LAST_KEY
    requires prev != FIRST_KEY ==> (FIRST_KEY, ledger) in successor
    ensures forall k: Key | k == FIRST_KEY || k in keys :: (k, ledger) in successor[(prev, ledger) := LAST_KEY]
  {
    forall k: Key | k in keys && k != prev ensures (k, ledger) in successor {
      assert k < prev && Next(keys, k) <= prev;
    }
  }

  // Whatever the order of responses and wherever the server stops each one, the ledger that
  // was downloaded is served completely: its objects, its list of keys and its cache.
  method LoadInitialLedger(backend: Backend, ledger: nat, numMarkers: nat, source: State, arrivals: seq<Arrival>)
    returns (finished: bool, markers: seq<Key>)
    requires ledger > 0 && 1 <= numMarkers <= 256 && Proper(source)
    requires backend.objects == map[] && backend.successor == map[] && backend.cache.State() == EMPTY_CACHE
    modifies backend, backend.cache
    ensures |markers| == numMarkers && Markers(markers)
    ensures finished ==> Serves(backend, Downloaded(source, markers), ledger)
    // It is finished exactly when every range has had a response that ends it.
    ensures finished <==> forall i | 0 <= i < numMarkers :: RangeEnded(markers, arrivals, i)
  {
    markers := GetMarkers(numMarkers);
    ghost var state := Downloaded(source, markers);
    var loader := new Loader(backend, ledger, markers);
    StartRanges(markers);
    StartTiled(markers);
    StartLoading(state, ledger, markers);
    var edgeKeys := loader.Download(source, arrivals, markers);
    finished := loader.IsFinished(state, markers, arrivals, edgeKeys);
    if finished {
      loader.Complete(edgeKeys, source, markers);
    }
  }

  ghost predicate Serves(backend: Backend, state: State, ledger: nat)
    reads backend, backend.cache
  {
    && SameObjects(backend.objects, state, state.Keys, ledger)
    && TrueRows(backend.successor, state.Keys, ledger)
    && ChainAt(backend.successor, state.Keys, ledger)
    && backend.cache.State() == CacheOf(state, ledger)
  }

  // The cache answers with true successors, and with the objects it lists.
  ghost predicate ReadsNext(c: CacheState, keys: set<Key>, ledger: nat) {
    forall k: Key {:trigger CachedSuccessor(c, k, ledger)} ::
      var s := CachedSuccessor(c, k, ledger);
      && (s.None? <==> Next(keys, k) == LAST_KEY)
      && (s.Some? ==> s.value.key == Next(keys, k) && s.value.key > k)
      && (s.Some? ==> s.value.key in keys && Cached(c, s.value.key, ledger).Some?)
  }

  lemma MirrorReads(c: CacheState, state: State, ledger: nat)
    requires Mirrors(c, state, ledger) && Proper(state)
    ensures ReadsNext(c, state.Keys, ledger)
  {
    forall k: Key {:trigger CachedSuccessor(c, k, ledger)}
      ensures var s := CachedSuccessor(c, k, ledger);
        && (s.None? <==> Next(state.Keys, k) == LAST_KEY)
        && (s.Some? ==> s.value.key == Next(state.Keys, k) && s.value.key > k)
        && (s.Some? ==> s.value.key in state.Keys && Cached(c, s.value.key, ledger).Some?)
    {
      MirrorNeighbours(c, state, ledger, k);
      if CachedSuccessor(c, k, ledger).Some? {
        MirrorNeighbours(c, state, ledger, CachedSuccessor(c, k, ledger).value.key);
      }
    }
  }

  ghost predicate EdgesNoted(calls: seq<Call>, edgeKeys: seq<Key>) {
    forall i | 0 <= i < |calls| :: calls[i].done && calls[i].lastKey.Some? ==> calls[i].lastKey.value in edgeKeys
  }

  lemma DownloadComplete(
    state: State, ledger: nat, markers: seq<Key>, calls: seq<Call>, objects: Table<Key, Blob>,
    successor: Table<Key, Key>, c: CacheState, edgeKeys: seq<Key>)
    requires Loading(state, ledger, calls, objects, successor, c) && RangesOf(calls, markers)
    requires forall k | k in state :: k !in markers
    requires forall i | 0 <= i < |calls| :: calls[i].done
    requires EdgesNoted(calls, edgeKeys)
    ensures Filled(c) == CacheOf(state, ledger) && SameObjects(objects, state, state.Keys, ledger)
    ensures forall k | k in state && (k, ledger) !in successor :: k in edgeKeys
  {
    AllReached(state, markers, calls);
    CacheIsWhole(state, ledger, calls, c) by {
      assert calls[0].done;
    }
    LastKeysAreNoted(state, ledger, calls, successor, edgeKeys);
  }

  lemma CacheIsWhole(state: State, ledger: nat, calls: seq<Call>, c: CacheState)
    requires CacheHolds(c, state, calls, ledger) && c.latest == ledger
    requires forall k | k in state :: Reached(calls, k)
    ensures Filled(c) == CacheOf(state, ledger) && c.entries.Keys == state.Keys
  {
    assert c.entries == CacheOf(state, ledger).entries;
  }

  lemma LastKeysAreNoted(state: State, ledger: nat, calls: seq<Call>, successor: Table<Key, Key>, edgeKeys: seq<Key>)
    requires Linked(successor, state.Keys, calls, ledger)
    requires forall i | 0 <= i < |calls| :: calls[i].done
    requires EdgesNoted(calls, edgeKeys)
    ensures forall k | k in state && (k, ledger) !in successor :: k in edgeKeys
  {
    forall k | k in state && (k, ledger) !in successor ensures k in edgeKeys {
      assert IsLast(calls, k);
    }
  }

  lemma StartEnds(markers: seq<Key>, i: nat)
    requires Markers(markers) && i < |markers|
    ensures EndsAtPrefix(Ranges(markers)[i])
  {
    if i + 1 < |markers| {
      assert Aligned(markers[i + 1]) && markers[i + 1] > markers[i];
    }
  }

  lemma StartRanges(markers: seq<Key>)
    requires Markers(markers)
    ensures RangesOf(Ranges(markers), markers)
  {
    forall i: nat | i < |markers| ensures EndsAtPrefix(Ranges(markers)[i]) {
      StartEnds(markers, i);
    }
  }

  lemma MarkerIsBelowLast(key: Key)
    requires Aligned(key)
    ensures key < LAST_KEY
  {
  }

  lemma StartTiled(markers: seq<Key>)
    requires |markers| > 0 && Markers(markers)
    ensures Tiled(Ranges(markers))
  {
    forall i | 0 <= i < |markers| ensures markers[i] < LAST_KEY {
      MarkerIsBelowLast(markers[i]);
    }
    RisingTiled(markers, Ranges(markers));
  }

  lemma RisingTiled(markers: seq<Key>, calls: seq<Call>)
    requires 0 < |markers| == |calls| && markers[0] == FIRST_KEY
    requires forall i | 0 <= i < |markers| :: markers[i] < LAST_KEY
    requires forall i, j | 0 <= i < j < |markers| :: markers[i] < markers[j]
    requires forall i {:trigger calls[i]} | 0 <= i < |calls| ::
      && calls[i].marker == calls[i].cursor == markers[i]
      && calls[i].end == if i + 1 == |markers| then LAST_KEY else markers[i + 1]
    ensures Tiled(calls)
  {
    forall i | 0 <= i < |calls| ensures calls[i].cursor < calls[i].end {
      assert i + 1 < |markers| ==> markers[i] < markers[i + 1];
    }
    forall i, j | 0 <= i < j < |calls|
      ensures calls[i].end <= calls[j].marker && (j == i + 1 ==> calls[i].end == calls[j].marker)
    {
      assert calls[j].marker == markers[j];
      assert i + 1 == j || markers[i + 1] < markers[j];
    }
    assert calls[|calls| - 1].end == LAST_KEY;
  }

  lemma StartLoading(state: State, ledger: nat, markers: seq<Key>)
    requires Proper(state) && Tiled(Ranges(markers))
    ensures Loading(state, ledger, Ranges(markers), map[], map[], EMPTY_CACHE)
  {
    var calls := Ranges(markers);
    assert forall i | 0 <= i < |calls| :: calls[i].lastKey == None && !calls[i].done && calls[i].Reach() == calls[i].marker;
  }

  lemma RowsMakeChain(successor: Table<Key, Key>, keys: set<Key>, ledger: nat)
    requires TrueRows(successor, keys, ledger)
    requires forall k: Key | k == FIRST_KEY || k in keys :: (k, ledger) in successor
    ensures ChainAt(successor, keys, ledger)
  {
  }

  /* What the download is worth */

  lemma OnlyTrueRows(successor: Table<Key, Key>, keys: set<Key>, ledger: nat, key: Key)
    requires TrueRows(successor, keys, ledger) && key !in keys && key != FIRST_KEY
    ensures SelectLatest(successor, key, ledger).None?
  {
    SelectLatestRow(successor, key, ledger);
    assert forall s: nat :: (key, s) !in successor;
  }

  // The list written is the source ledger's own list exactly when no live key equals a marker.
  lemma ListIsCompleteIffNoMarkerIsLive(source: State, markers: seq<Key>, successor: Table<Key, Key>, ledger: nat)
    requires Proper(source) && Markers(markers)
    requires TrueRows(successor, Downloaded(source, markers).Keys, ledger)
    requires ChainAt(successor, Downloaded(source, markers).Keys, ledger)
    ensures ChainAt(successor, source.Keys, ledger) <==> forall m | m in markers :: m !in source
  {
    var state := Downloaded(source, markers);
    if m :| m in markers && m in source {
      OnlyTrueRows(successor, state.Keys, ledger, m);
    } else {
      assert state == source;
    }
  }

  // A ledger whose only key is the second marker: whatever list is left, it is not that ledger's.
  lemma LiveMarkerIsLost(markers: seq<Key>, successor: Table<Key, Key>, ledger: nat)
    requires Markers(markers) && |markers| > 1
    ensures var source: State := map[markers[1] := Data(Other([]))];
      && Proper(source) && Downloaded(source, markers) == map[]
      && (TrueRows(successor, {}, ledger) && ChainAt(successor, {}, ledger) ==> !ChainAt(successor, source.Keys, ledger))
  {
    var source: State := map[markers[1] := Data(Other([]))];
    MarkerIsBelowLast(markers[1]);
    assert markers[0] < markers[1];
    assert Downloaded(source, markers) == map[];
    assert Downloaded(source, markers).Keys == {};
    if TrueRows(successor, {}, ledger) && ChainAt(successor, {}, ledger) {
      ListIsCompleteIffNoMarkerIsLive(source, markers, successor, ledger);
      assert markers[1] in markers && markers[1] in source;
    }
  }

  // The objects written, too.
  lemma ObjectsAreServed(state: State, objects: Table<Key, Blob>, ledger: nat)
    requires SameObjects(objects, state, state.Keys, ledger)
    ensures ObjectsServe(objects, state, ledger)
  {
    forall k: Key ensures DbObject(objects, k, ledger) == Lookup(state, k) {
      if k in state {
        assert (k, ledger) in objects;
      } else {
        assert SelectLatest(objects, k, ledger).None? by {
          SelectLatestRow(objects, k, ledger);
        }
      }
    }
  }

  // No record is written for a book, so the index is right just for the books without directories.
  lemma BookRecordsAreMissing(keys: set<Key>, successor: Table<Key, Key>, ledger: nat, book: Key)
    requires TrueRows(successor, keys, ledger) && LAST_KEY !in keys
    requires IsBase(book) && book !in keys && book != FIRST_KEY
    ensures BookIndexed(DbSuccessor(successor, book, ledger), keys, book)
      <==> DirsAfter(keys, book, book + QUALITY_SPAN) == []
  {
    OnlyTrueRows(successor, keys, ledger, book);
  }
}
