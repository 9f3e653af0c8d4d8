// The marker ranges of an initial download, and what each response adds to the tables.
module InitialRanges {
  import opened Wrappers
  import opened Sequences
  import opened Tables
  import opened Ledger
  import opened SimpleCaches
  import opened Pages
  import opened BuildLedger
  import opened Successors

  type Byte = b: int | 0 <= b < 256

  // A key's first byte, and the least key with a given first byte.
  function TopByte(key: Key): Byte {
    key / 0x1_00000000_00000000_00000000_00000000_00000000_00000000_00000000_000000
  }

  function Marker(prefix: Byte): Key {
    prefix * 0x1_00000000_00000000_00000000_00000000_00000000_00000000_00000000_000000
  }

  // Where a range ends; prefix 0 stands for no next range.
  function EndOf(nextPrefix: Byte): Key {
    if nextPrefix == 0 then LAST_KEY else Marker(nextPrefix)
  }

  // Comparing first bytes compares with the range's end.
  lemma FirstByteTellsEnd(key: Key, nextPrefix: Byte)
    requires key < LAST_KEY
    ensures key >= EndOf(nextPrefix) <==> nextPrefix != 0 && TopByte(key) >= nextPrefix
  {
  }

  /* One range */

  // A range starts after `marker` and ends before `end`, the least key with the next range's prefix.
  datatype Call = Call(marker: Key, nextPrefix: Byte, end: Key, cursor: Key, lastKey: Option<Key>, done: bool) {
    // How far the range has been downloaded.
    function Reach(): int {
      if done then end - 1 else cursor
    }

    predicate Holds(key: Key) {
      marker < key <= Reach()
    }
  }

  // Keys above `lo` and not above `hi`, ascending.
  function Between(keys: set<Key>, lo: Key, hi: int): seq<Key>
    requires LAST_KEY !in keys
    decreases Above(keys, lo)
  {
    var n := Next(keys, lo);
    if n == LAST_KEY || n > hi then
      []
    else
      assert n in Above(keys, lo) && n !in Above(keys, n);
      [n] + Between(keys, n, hi)
  }

  lemma {:induction false} BetweenHolds(keys: set<Key>, lo: Key, hi: int)
    requires LAST_KEY !in keys
    ensures forall k :: k in Between(keys, lo, hi) <==> k in keys && lo < k <= hi
    decreases Above(keys, lo)
  {
    var n := Next(keys, lo);
    if n != LAST_KEY && n <= hi {
      assert n in Above(keys, lo) && n !in Above(keys, n);
      BetweenHolds(keys, n, hi);
    }
  }

  lemma {:induction false} BetweenSorted(keys: set<Key>, lo: Key, hi: int)
    requires LAST_KEY !in keys
    ensures Ascending(Between(keys, lo, hi))
    ensures forall k :: k in Between(keys, lo, hi) <==> k in keys && lo < k <= hi
    decreases Above(keys, lo)
  {
    BetweenHolds(keys, lo, hi);
    var n := Next(keys, lo);
    if n != LAST_KEY && n <= hi {
      assert n in Above(keys, lo) && n !in Above(keys, n);
      BetweenSorted(keys, n, hi);
      var rest := Between(keys, n, hi);
      assert forall i | 0 <= i < |rest| :: rest[i] in rest;
    }
  }

  // Each listed key is the true successor of the one before it.
  lemma {:induction false} BetweenNeighbours(keys: set<Key>, lo: Key, hi: int, j: nat)
    requires LAST_KEY !in keys && j < |Between(keys, lo, hi)|
    ensures Between(keys, lo, hi)[j] == Next(keys, if j == 0 then lo else Between(keys, lo, hi)[j - 1])
    decreases j
  {
    if j > 0 {
      BetweenNeighbours(keys, Next(keys, lo), hi, j - 1);
    }
  }

  // A shorter range is a prefix of a longer one.
  lemma {:induction false} BetweenPrefix(keys: set<Key>, lo: Key, hi: int, far: int)
    requires LAST_KEY !in keys && hi <= far
    ensures Between(keys, lo, hi) <= Between(keys, lo, far)
    ensures forall j | |Between(keys, lo, hi)| <= j < |Between(keys, lo, far)| :: Between(keys, lo, far)[j] > hi
    decreases Above(keys, lo)
  {
    var n := Next(keys, lo);
    if n != LAST_KEY && n <= hi {
      assert n in Above(keys, lo) && n !in Above(keys, n);
      BetweenPrefix(keys, n, hi, far);
    } else {
      BetweenSorted(keys, lo, far);
      var all := Between(keys, lo, far);
      assert forall j | 0 <= j < |all| :: all[j] in all;
    }
  }

  // The server answers with the keys above the cursor up to the marker it returns,
  // or with all of them and no marker.
  datatype Response = Response(objects: seq<LedgerObject>, marker: Option<Key>)

  ghost predicate HonestResponse(source: State, cursor: Key, resp: Response)
    requires Proper(source)
  {
    && (resp.marker.Some? ==> cursor <= resp.marker.value < LAST_KEY)
    && resp.objects == ObjectsAt(source, Between(source.Keys, cursor, KeyOr(resp.marker, LAST_KEY)))
  }

  // The server has more of this range.
  predicate More(call: Call, marker: Option<Key>) {
    marker.Some? && marker.value < call.end
  }

  // An object of the final response that belongs to the next range.
  predicate Skips(call: Call, more: bool, key: Key) {
    !more && key >= call.end
  }

  // The range after the response.
  function Advance(source: State, call: Call, marker: Option<Key>): Call
    requires Proper(source)
  {
    var next := if More(call, marker) then call.(cursor := marker.value) else call.(done := true);
    next.(lastKey := LastOf(call.lastKey, Kept(source, call, marker)))
  }

  // The keys of the response that belong to the range.
  function Kept(source: State, call: Call, marker: Option<Key>): seq<Key>
    requires Proper(source)
  {
    Between(source.Keys, call.cursor, if More(call, marker) then marker.value else call.end - 1)
  }

  function LastOf(before: Option<Key>, keys: seq<Key>): Option<Key> {
    if keys == [] then before else Some(keys[|keys| - 1])
  }

  // Records from each key to the one that follows it.
  function Links(before: Option<Key>, keys: seq<Key>): seq<Edge> {
    if keys == [] then []
    else
      var rest, last := keys[..|keys| - 1], keys[|keys| - 1];
      var p := LastOf(before, rest);
      Links(before, rest) + if p.Some? then [Row(p.value, last)] else []
  }

  function StateRows(source: State, keys: seq<Key>): seq<Row<Key, Blob>> {
    seq(|keys|, i requires 0 <= i < |keys| => Row(keys[i], Lookup(source, keys[i])))
  }

  lemma TakeStep(keys: seq<Key>, all: seq<Key>, n: nat)
    requires keys <= all && n < |all|
    ensures Take(keys, n + 1) == if n < |keys| then Take(keys, n) + [all[n]] else Take(keys, n)
  {
  }

  lemma LinkStep(successor: Table<Key, Key>, ledger: nat, before: Option<Key>, keys: seq<Key>, key: Key)
    ensures var p := LastOf(before, keys);
      Insert(successor, ledger, Links(before, keys + [key])) ==
        if p.Some? then Insert(successor, ledger, Links(before, keys))[(p.value, ledger) := key]
        else Insert(successor, ledger, Links(before, keys))
  {
    var p := LastOf(before, keys);
    assert (keys + [key])[..|keys|] == keys;
    if p.Some? {
      InsertOne(successor, ledger, Links(before, keys), Row(p.value, key));
    } else {
      assert Links(before, keys) + [] == Links(before, keys);
    }
  }

  lemma StateStep(source: State, objects: Table<Key, Blob>, ledger: nat, keys: seq<Key>, key: Key)
    ensures Insert(objects, ledger, StateRows(source, keys + [key])) ==
      Insert(objects, ledger, StateRows(source, keys))[(key, ledger) := Lookup(source, key)]
    ensures ObjectsAt(source, keys + [key]) == ObjectsAt(source, keys) + [LedgerObject(key, Lookup(source, key))]
  {
    InsertOne(objects, ledger, StateRows(source, keys), Row(key, Lookup(source, key)));
    assert StateRows(source, keys + [key]) == StateRows(source, keys) + [Row(key, Lookup(source, key))];
  }

  // The ranges between these markers, before any response.
  function Ranges(markers: seq<Key>): seq<Call> {
    seq(|markers|, i requires 0 <= i < |markers| =>
      var last := i + 1 == |markers|;
      Call(markers[i], if last then 0 else TopByte(markers[i + 1]), if last then LAST_KEY else markers[i + 1],
           markers[i], None, false))
  }

  lemma BetweenCut(keys: set<Key>, lo: Key, hi: int, far: int)
    requires LAST_KEY !in keys && hi <= far
    ensures var near, all := Between(keys, lo, hi), Between(keys, lo, far);
      && near <= all
      && forall j | 0 <= j < |all| :: all[j] < LAST_KEY && (j >= |near| <==> all[j] > hi)
  {
    var near, all := Between(keys, lo, hi), Between(keys, lo, far);
    BetweenHolds(keys, lo, far);
    BetweenHolds(keys, lo, hi);
    BetweenPrefix(keys, lo, hi, far);
    forall j | 0 <= j < |all| ensures all[j] < LAST_KEY && (j >= |near| <==> all[j] > hi) {
      assert all[j] in all;
      if j < |near| {
        assert near[j] in near;
      }
    }
  }

  // Exactly the objects of a final response whose first byte reaches the next range are skipped.
  lemma KeptIsPrefix(source: State, call: Call, marker: Option<Key>)
    requires Proper(source) && (marker.Some? ==> call.cursor <= marker.value)
    ensures var keys, all := Kept(source, call, marker), Between(source.Keys, call.cursor, KeyOr(marker, LAST_KEY));
      && keys <= all
      && (forall j | 0 <= j < |all| :: all[j] < LAST_KEY && (j >= |keys| <==> Skips(call, More(call, marker), all[j])))
  {
    var far := KeyOr(marker, LAST_KEY);
    BetweenCut(source.Keys, call.cursor, if More(call, marker) then marker.value else call.end - 1, far);
    BetweenHolds(source.Keys, call.cursor, far);
    var all := Between(source.Keys, call.cursor, far);
    assert forall j | 0 <= j < |all| :: all[j] in all;
  }

  /* What has been downloaded so far */

  ghost predicate Reached(calls: seq<Call>, key: Key) {
    exists i :: 0 <= i < |calls| && calls[i].Holds(key)
  }

  // The last key of a range is the greatest one downloaded there.
  ghost predicate LastIsGreatest(keys: set<Key>, call: Call) {
    match call.lastKey
    case None => forall k | k in keys :: !call.Holds(k)
    case Some(g) => g in keys && call.Holds(g) && forall k | k in keys && call.Holds(k) :: k <= g
  }

  ghost predicate Tiled(calls: seq<Call>) {
    && |calls| > 0 && calls[0].marker == FIRST_KEY
    && (forall i | 0 <= i < |calls| :: calls[i].marker <= calls[i].cursor < calls[i].end)
    && (forall i, j | 0 <= i < j < |calls| :: calls[i].end <= calls[j].marker)
    && (forall i, j | 0 <= i < j < |calls| && j == i + 1 :: calls[i].end == calls[j].marker)
    && calls[|calls| - 1].end == LAST_KEY
  }

  ghost predicate TrueRows(successor: Table<Key, Key>, keys: set<Key>, ledger: nat) {
    forall k: Key, s: nat {:trigger (k, s) in successor} | (k, s) in successor ::
      s == ledger && (k == FIRST_KEY || k in keys) && successor[(k, s)] == Next(keys, k)
  }

  ghost predicate SameObjects(objects: Table<Key, Blob>, state: State, present: set<Key>, ledger: nat) {
    forall k: Key, s: nat {:trigger (k, s) in objects} ::
      && ((k, s) in objects <==> s == ledger && k in present)
      && ((k, s) in objects ==> objects[(k, s)] == Lookup(state, k))
  }

  // Keys without a record yet are the last of their range.
  ghost predicate Linked(successor: Table<Key, Key>, present: set<Key>, calls: seq<Call>, ledger: nat) {
    forall k | k in present && (k, ledger) !in successor :: IsLast(calls, k)
  }

  ghost predicate IsLast(calls: seq<Call>, key: Key) {
    exists i :: 0 <= i < |calls| && calls[i].lastKey == Some(key)
  }

  ghost predicate CacheHolds(c: CacheState, state: State, calls: seq<Call>, ledger: nat) {
    && !c.disabled && !c.full && (c.latest == 0 || c.latest == ledger)
    && (forall k :: k in c.entries <==> k in state && Reached(calls, k))
    && (forall k | k in c.entries :: c.entries[k] == Entry(ledger, state[k]))
  }

  ghost predicate Loading(
    state: State, ledger: nat, calls: seq<Call>, objects: Table<Key, Blob>, successor: Table<Key, Key>, c: CacheState)
  {
    && Proper(state) && Tiled(calls)
    && (forall i | 0 <= i < |calls| :: LastIsGreatest(state.Keys, calls[i]))
    && (forall i | 0 <= i < |calls| && calls[i].done :: c.latest == ledger)
    && CacheHolds(c, state, calls, ledger)
    && SameObjects(objects, state, c.entries.Keys, ledger)
    && TrueRows(successor, state.Keys, ledger)
    && Linked(successor, c.entries.Keys, calls, ledger)
  }

  // A response moves its range on by exactly the keys kept.
  lemma AdvanceHolds(state: State, call: Call, marker: Option<Key>)
    requires Proper(state) && !call.done && call.marker <= call.cursor < call.end
    requires marker.Some? ==> call.cursor <= marker.value < LAST_KEY
    ensures var next, keys := Advance(state, call, marker), Kept(state, call, marker);
      && next.marker == call.marker && next.nextPrefix == call.nextPrefix && next.end == call.end
      && call.cursor <= next.cursor < next.end
      && forall k | k in state :: next.Holds(k) <==> call.Holds(k) || k in keys
  {
    var next := Advance(state, call, marker);
    BetweenSorted(state.Keys, call.cursor, if More(call, marker) then marker.value else call.end - 1);
  }

  lemma AdvanceLast(state: State, call: Call, marker: Option<Key>)
    requires Proper(state) && !call.done && call.marker <= call.cursor < call.end
    requires marker.Some? ==> call.cursor <= marker.value < LAST_KEY
    requires LastIsGreatest(state.Keys, call)
    ensures LastIsGreatest(state.Keys, Advance(state, call, marker))
  {
    var keys := Kept(state, call, marker);
    AdvanceHolds(state, call, marker);
    BetweenSorted(state.Keys, call.cursor, if More(call, marker) then marker.value else call.end - 1);
    if keys != [] {
      assert keys[|keys| - 1] in keys;
    }
  }

  // A range's last key is followed by the first key above its cursor.
  lemma NextAfterLast(state: State, call: Call)
    requires Proper(state) && !call.done && call.marker <= call.cursor
    requires LastIsGreatest(state.Keys, call) && call.lastKey.Some?
    ensures Next(state.Keys, call.lastKey.value) == Next(state.Keys, call.cursor)
  {
    var g := call.lastKey.value;
    assert forall k | k in state && k > g :: !call.Holds(k);
  }

  // A record leads from one listed key to the next, or from the last key before them.
  lemma {:induction false} LinkOrigin(before: Option<Key>, keys: seq<Key>, r: Edge) returns (j: nat)
    requires r in Links(before, keys)
    ensures j < |keys| && r.value == keys[j]
    ensures if j == 0 then before == Some(r.key) else r.key == keys[j - 1]
  {
    var rest := keys[..|keys| - 1];
    if r in Links(before, rest) {
      j := LinkOrigin(before, rest, r);
    } else {
      j := |rest|;
    }
  }

  // The records added are true.
  lemma LinkIsTrue(state: State, call: Call, hi: int, r: Edge)
    requires Proper(state) && !call.done && call.marker <= call.cursor
    requires LastIsGreatest(state.Keys, call)
    requires r in Links(call.lastKey, Between(state.Keys, call.cursor, hi))
    ensures r.key in state && r.value == Next(state.Keys, r.key)
  {
    var all := Between(state.Keys, call.cursor, hi);
    var j := LinkOrigin(call.lastKey, all, r);
    BetweenNeighbours(state.Keys, call.cursor, hi, j);
    if j == 0 {
      NextAfterLast(state, call);
    } else {
      BetweenSorted(state.Keys, call.cursor, hi);
      assert all[j - 1] in all;
    }
  }

  // They join up with the range's last key, and leave only the new last key without one.
  lemma {:induction false} LinksCover(before: Option<Key>, keys: seq<Key>, key: Key)
    requires (before == Some(key) || key in keys) && LastOf(before, keys) != Some(key)
    ensures HasEdge(Links(before, keys), key)
  {
    var rest, last := keys[..|keys| - 1], keys[|keys| - 1];
    var p := LastOf(before, rest);
    if p == Some(key) {
      assert Row(key, last) in Links(before, keys);
    } else {
      LinksCover(before, rest, key);
      var r :| r in Links(before, rest) && r.key == key;
      assert r in Links(before, keys);
    }
  }

  lemma ReachedStep(state: State, calls: seq<Call>, i: nat, marker: Option<Key>, key: Key)
    requires Proper(state) && Tiled(calls) && i < |calls| && !calls[i].done && key in state
    requires marker.Some? ==> calls[i].cursor <= marker.value < LAST_KEY
    ensures Reached(calls[i := Advance(state, calls[i], marker)], key)
      <==> Reached(calls, key) || key in Kept(state, calls[i], marker)
  {
    var next := Advance(state, calls[i], marker);
    var calls' := calls[i := next];
    AdvanceHolds(state, calls[i], marker);
    if Reached(calls, key) {
      var j :| 0 <= j < |calls| && calls[j].Holds(key);
      assert calls'[j].Holds(key);
    }
    if key in Kept(state, calls[i], marker) {
      assert calls'[i].Holds(key);
    }
    if Reached(calls', key) {
      var j :| 0 <= j < |calls'| && calls'[j].Holds(key);
      assert j != i ==> calls[j].Holds(key);
    }
  }

  lemma ReachedAll(state: State, calls: seq<Call>, i: nat, marker: Option<Key>)
    requires Proper(state) && Tiled(calls) && i < |calls| && !calls[i].done
    requires marker.Some? ==> calls[i].cursor <= marker.value < LAST_KEY
    ensures var calls', keys := calls[i := Advance(state, calls[i], marker)], Kept(state, calls[i], marker);
      forall k | k in state :: Reached(calls', k) <==> Reached(calls, k) || k in keys
  {
    forall k | k in state {
      ReachedStep(state, calls, i, marker, k);
    }
  }

  lemma CacheStep(state: State, c: CacheState, keys: seq<Key>, ledger: nat, key: Key)
    requires Ascending(keys) && ledger > 0 && !c.disabled && (forall k | k in keys :: k in state && state[k] != Empty)
    requires forall k | k in c.entries :: k in state && c.entries[k] == Entry(ledger, state[k])
    ensures var d := Updated(c, ObjectsAt(state, keys), ledger, false);
      && (key in d.entries <==> key in c.entries || key in keys)
      && (key in d.entries ==> d.entries[key] == Entry(ledger, state[key]))
  {
    var objs := ObjectsAt(state, keys);
    var start := c.(latest := if ledger > c.latest then ledger else c.latest);
    if key in keys {
      var j :| 0 <= j < |keys| && keys[j] == key;
      StoreAllTouched(start, objs, ledger, false, objs[j]);
    } else {
      StoreAllUntouched(start, objs, ledger, false, key);
      assert key in c.entries ==> EntryAt(c.entries, key) == c.entries[key];
    }
  }

  lemma {:induction false} ObjectRowsStep(
    state: State, objects: Table<Key, Blob>, present: set<Key>, keys: seq<Key>, ledger: nat)
    requires SameObjects(objects, state, present, ledger)
    ensures SameObjects(Insert(objects, ledger, StateRows(state, keys)), state, present + (set k | k in keys), ledger)
  {
    if keys != [] {
      var rest, last := keys[..|keys| - 1], keys[|keys| - 1];
      ObjectRowsStep(state, objects, present, rest, ledger);
      assert StateRows(state, keys)[..|rest|] == StateRows(state, rest);
      assert keys == rest + [last];
    } else {
      assert present + (set k | k in keys) == present;
    }
  }

  lemma SuccessorRowsStep(state: State, ledger: nat, call: Call, hi: int, successor: Table<Key, Key>, k: Key, s: nat)
    requires Proper(state) && !call.done && call.marker <= call.cursor && LastIsGreatest(state.Keys, call)
    requires TrueRows(successor, state.Keys, ledger)
    ensures var t := Insert(successor, ledger, Links(call.lastKey, Between(state.Keys, call.cursor, hi)));
      (k, s) in t ==> s == ledger && (k == FIRST_KEY || k in state) && t[(k, s)] == Next(state.Keys, k)
  {
    var rows := Links(call.lastKey, Between(state.Keys, call.cursor, hi));
    if s == ledger && HasEdge(rows, k) {
      InsertedValue(successor, ledger, rows, k);
      var r :| r in rows && r.key == k && r.value == Insert(successor, ledger, rows)[(k, ledger)];
      LinkIsTrue(state, call, hi, r);
    } else {
      InsertOther(successor, ledger, rows, k, s);
    }
  }

  lemma LinkedStep(
    present: set<Key>, calls: seq<Call>, i: nat, next: Call, keys: seq<Key>, successor: Table<Key, Key>,
    ledger: nat, k: Key)
    requires i < |calls| && next.lastKey == LastOf(calls[i].lastKey, keys)
    requires Linked(successor, present, calls, ledger)
    requires k in present || k in keys
    requires (k, ledger) !in Insert(successor, ledger, Links(calls[i].lastKey, keys))
    ensures IsLast(calls[i := next], k)
  {
    var rows := Links(calls[i].lastKey, keys);
    var calls' := calls[i := next];
    InsertedValue(successor, ledger, rows, k);
    if calls[i].lastKey == Some(k) || k in keys {
      if next.lastKey != Some(k) {
        LinksCover(calls[i].lastKey, keys, k);
      }
      assert calls'[i].lastKey == Some(k);
    } else {
      InsertOther(successor, ledger, rows, k, ledger) by {
        forall r | r in rows ensures r.key != k {
          var j := LinkOrigin(calls[i].lastKey, keys, r);
          assert j > 0 ==> keys[j - 1] in keys;
        }
      }
      var j :| 0 <= j < |calls| && calls[j].lastKey == Some(k);
      assert calls'[j].lastKey == Some(k);
    }
  }

  lemma TiledStep(state: State, calls: seq<Call>, i: nat, marker: Option<Key>)
    requires Proper(state) && Tiled(calls) && i < |calls| && !calls[i].done
    requires marker.Some? ==> calls[i].cursor <= marker.value < LAST_KEY
    ensures Tiled(calls[i := Advance(state, calls[i], marker)])
  {
    AdvanceHolds(state, calls[i], marker);
  }

  lemma CacheHoldsStep(state: State, ledger: nat, calls: seq<Call>, calls': seq<Call>, keys: seq<Key>, c: CacheState)
    requires ledger > 0 && Proper(state) && CacheHolds(c, state, calls, ledger)
    requires Ascending(keys) && forall k | k in keys :: k in state
    requires forall k | k in state :: Reached(calls', k) <==> Reached(calls, k) || k in keys
    ensures var d := Updated(c, ObjectsAt(state, keys), ledger, false);
      && CacheHolds(d, state, calls', ledger) && d.latest == ledger
      && d.entries.Keys == c.entries.Keys + (set k | k in keys)
  {
    UpdatedRest(c, ObjectsAt(state, keys), ledger);
    forall k: Key {
      CacheStep(state, c, keys, ledger, k);
    }
  }

  lemma KeptSorted(state: State, call: Call, marker: Option<Key>)
    requires Proper(state)
    ensures Ascending(Kept(state, call, marker)) && forall k | k in Kept(state, call, marker) :: k in state
  {
    BetweenSorted(state.Keys, call.cursor, if More(call, marker) then marker.value else call.end - 1);
  }

  lemma CallCacheStep(state: State, ledger: nat, calls: seq<Call>, i: nat, marker: Option<Key>, c: CacheState)
    requires ledger > 0 && Proper(state) && Tiled(calls) && CacheHolds(c, state, calls, ledger)
    requires i < |calls| && !calls[i].done && (marker.Some? ==> calls[i].cursor <= marker.value < LAST_KEY)
    ensures var keys := Kept(state, calls[i], marker);
      var d := Updated(c, ObjectsAt(state, keys), ledger, false);
      && CacheHolds(d, state, calls[i := Advance(state, calls[i], marker)], ledger) && d.latest == ledger
      && d.entries.Keys == c.entries.Keys + (set k | k in keys)
  {
    KeptSorted(state, calls[i], marker);
    ReachedAll(state, calls, i, marker);
    CacheHoldsStep(state, ledger, calls, calls[i := Advance(state, calls[i], marker)], Kept(state, calls[i], marker), c);
  }

  lemma RecordsStep(
    state: State, ledger: nat, calls: seq<Call>, i: nat, hi: int, next: Call, present: set<Key>, successor: Table<Key, Key>)
    requires Proper(state) && i < |calls| && !calls[i].done && calls[i].marker <= calls[i].cursor
    requires LastIsGreatest(state.Keys, calls[i])
    requires next.lastKey == LastOf(calls[i].lastKey, Between(state.Keys, calls[i].cursor, hi))
    requires TrueRows(successor, state.Keys, ledger) && Linked(successor, present, calls, ledger)
    ensures var keys := Between(state.Keys, calls[i].cursor, hi);
      var t := Insert(successor, ledger, Links(calls[i].lastKey, keys));
      && TrueRows(t, state.Keys, ledger)
      && Linked(t, present + (set k | k in keys), calls[i := next], ledger)
  {
    var keys := Between(state.Keys, calls[i].cursor, hi);
    var t := Insert(successor, ledger, Links(calls[i].lastKey, keys));
    forall k: Key, s: nat {:trigger (k, s) in t} | (k, s) in t
      ensures s == ledger && (k == FIRST_KEY || k in state) && t[(k, s)] == Next(state.Keys, k)
    {
      SuccessorRowsStep(state, ledger, calls[i], hi, successor, k, s);
    }
    forall k | (k in present || k in keys) && (k, ledger) !in t ensures IsLast(calls[i := next], k) {
      LinkedStep(present, calls, i, next, keys, successor, ledger, k);
    }
  }

  lemma AllLast(state: State, calls: seq<Call>, i: nat, marker: Option<Key>)
    requires Proper(state) && Tiled(calls) && i < |calls| && !calls[i].done
    requires marker.Some? ==> calls[i].cursor <= marker.value < LAST_KEY
    requires forall j | 0 <= j < |calls| :: LastIsGreatest(state.Keys, calls[j])
    ensures var calls' := calls[i := Advance(state, calls[i], marker)];
      forall j | 0 <= j < |calls'| :: LastIsGreatest(state.Keys, calls'[j])
  {
    AdvanceLast(state, calls[i], marker);
  }

  lemma CallRecordsStep(
    state: State, ledger: nat, calls: seq<Call>, i: nat, marker: Option<Key>, present: set<Key>, successor: Table<Key, Key>)
    requires Proper(state) && Tiled(calls) && i < |calls| && !calls[i].done && LastIsGreatest(state.Keys, calls[i])
    requires TrueRows(successor, state.Keys, ledger) && Linked(successor, present, calls, ledger)
    ensures var keys := Kept(state, calls[i], marker);
      var t := Insert(successor, ledger, Links(calls[i].lastKey, keys));
      && TrueRows(t, state.Keys, ledger)
      && Linked(t, present + (set k | k in keys), calls[i := Advance(state, calls[i], marker)], ledger)
  {
    RecordsStep(state, ledger, calls, i, if More(calls[i], marker) then marker.value else calls[i].end - 1,
                Advance(state, calls[i], marker), present, successor);
  }

  lemma JoinLoading(
    state: State, ledger: nat, calls: seq<Call>, objects: Table<Key, Blob>, successor: Table<Key, Key>, c: CacheState,
    present: set<Key>)
    requires Proper(state) && Tiled(calls) && c.latest == ledger && c.entries.Keys == present
    requires forall i | 0 <= i < |calls| :: LastIsGreatest(state.Keys, calls[i])
    requires CacheHolds(c, state, calls, ledger) && SameObjects(objects, state, present, ledger)
    requires TrueRows(successor, state.Keys, ledger) && Linked(successor, present, calls, ledger)
    ensures Loading(state, ledger, calls, objects, successor, c)
  {
  }

  // Whatever range a response belongs to, the download so far stays consistent.
  lemma AdvanceKeepsLoading(
    state: State, ledger: nat, calls: seq<Call>, i: nat, marker: Option<Key>,
    objects: Table<Key, Blob>, successor: Table<Key, Key>, c: CacheState)
    requires ledger > 0 && Loading(state, ledger, calls, objects, successor, c)
    requires i < |calls| && !calls[i].done && (marker.Some? ==> calls[i].cursor <= marker.value < LAST_KEY)
    ensures var keys := Kept(state, calls[i], marker);
      Loading(state, ledger, calls[i := Advance(state, calls[i], marker)],
              Insert(objects, ledger, StateRows(state, keys)),
              Insert(successor, ledger, Links(calls[i].lastKey, keys)),
              Updated(c, ObjectsAt(state, keys), ledger, false))
  {
    var keys, calls' := Kept(state, calls[i], marker), calls[i := Advance(state, calls[i], marker)];
    TiledStep(state, calls, i, marker);
    AllLast(state, calls, i, marker);
    CallCacheStep(state, ledger, calls, i, marker, c);
    ObjectRowsStep(state, objects, c.entries.Keys, keys, ledger);
    CallRecordsStep(state, ledger, calls, i, marker, c.entries.Keys, successor);
    JoinLoading(state, ledger, calls', Insert(objects, ledger, StateRows(state, keys)),
                Insert(successor, ledger, Links(calls[i].lastKey, keys)), Updated(c, ObjectsAt(state, keys), ledger, false),
                c.entries.Keys + set k | k in keys);
  }

  /* What is lost */

  // A server answers a marker with the keys above it, so a live key equal to a marker is in no range.
  function Downloaded(source: State, markers: seq<Key>): State {
    map k | k in source && k !in markers :: source[k]
  }

  // The ranges between these markers, however far they have come.
  ghost predicate RangesOf(calls: seq<Call>, markers: seq<Key>) {
    && |calls| == |markers|
    && forall i | 0 <= i < |calls| :: calls[i].marker == markers[i] && EndsAtPrefix(calls[i])
  }

  predicate EndsAtPrefix(call: Call) {
    call.end == EndOf(call.nextPrefix)
  }

  lemma {:induction false} BetweenSame(a: set<Key>, b: set<Key>, lo: Key, hi: int)
    requires LAST_KEY !in a && LAST_KEY !in b && hi < LAST_KEY
    requires forall k | lo < k <= hi :: k in a <==> k in b
    ensures Between(a, lo, hi) == Between(b, lo, hi)
    decreases Above(a, lo)
  {
    var n, m := Next(a, lo), Next(b, lo);
    if n <= hi {
      assert n in Above(a, lo) && n !in Above(a, n);
      assert n in b && m <= n && m in a;
      BetweenSame(a, b, n, hi);
    } else {
      assert m > hi;
    }
  }

  // No lost key falls inside a range.
  lemma SameInRange(source: State, markers: seq<Key>, calls: seq<Call>, i: nat, k: Key)
    requires Tiled(calls) && RangesOf(calls, markers) && i < |calls| && calls[i].marker < k < calls[i].end
    ensures k in source <==> k in Downloaded(source, markers)
  {
    forall j | 0 <= j < |markers| ensures markers[j] != k {
      assert calls[j].marker == markers[j];
    }
  }

  lemma KeptSame(source: State, markers: seq<Key>, calls: seq<Call>, i: nat, marker: Option<Key>)
    requires Proper(source) && Tiled(calls) && RangesOf(calls, markers) && i < |calls| && !calls[i].done
    ensures var state, keys := Downloaded(source, markers), Kept(source, calls[i], marker);
      && keys == Kept(state, calls[i], marker)
      && ObjectsAt(source, keys) == ObjectsAt(state, keys) && StateRows(source, keys) == StateRows(state, keys)
  {
    var state := Downloaded(source, markers);
    var hi: int := if More(calls[i], marker) then marker.value else calls[i].end - 1;
    forall k: Key | calls[i].cursor < k <= hi ensures k in source <==> k in state {
      SameInRange(source, markers, calls, i, k);
    }
    BetweenSame(source.Keys, state.Keys, calls[i].cursor, hi);
    KeptSorted(state, calls[i], marker);
    SameObjectsAt(source, markers, Kept(state, calls[i], marker));
  }

  lemma SameObjectsAt(source: State, markers: seq<Key>, keys: seq<Key>)
    requires forall k | k in keys :: k in Downloaded(source, markers)
    ensures var state := Downloaded(source, markers);
      ObjectsAt(source, keys) == ObjectsAt(state, keys) && StateRows(source, keys) == StateRows(state, keys)
  {
  }

  lemma ResponseKeepsLoading(
    source: State, markers: seq<Key>, ledger: nat, calls: seq<Call>, i: nat, marker: Option<Key>,
    objects: Table<Key, Blob>, successor: Table<Key, Key>, c: CacheState)
    requires ledger > 0 && Proper(source) && RangesOf(calls, markers)
    requires Loading(Downloaded(source, markers), ledger, calls, objects, successor, c)
    requires i < |calls| && !calls[i].done && (marker.Some? ==> calls[i].cursor <= marker.value < LAST_KEY)
    ensures var calls', keys := calls[i := Advance(source, calls[i], marker)], Kept(source, calls[i], marker);
      && RangesOf(calls', markers)
      && Loading(Downloaded(source, markers), ledger, calls',
                 Insert(objects, ledger, StateRows(source, keys)),
                 Insert(successor, ledger, Links(calls[i].lastKey, keys)),
                 Updated(c, ObjectsAt(source, keys), ledger, false))
      && (calls'[i].lastKey.Some? ==> calls'[i].lastKey.value in Downloaded(source, markers))
  {
    KeptSame(source, markers, calls, i, marker);
    AdvanceKeepsLoading(Downloaded(source, markers), ledger, calls, i, marker, objects, successor, c);
    AdvanceHolds(Downloaded(source, markers), calls[i], marker);
    AdvanceLast(Downloaded(source, markers), calls[i], marker);
  }

  // Every other key is in one.
  lemma {:induction false} InSomeRange(calls: seq<Call>, n: nat, key: Key)
    requires Tiled(calls) && n < |calls| && FIRST_KEY < key < calls[n].end
    requires forall i | 0 <= i < |calls| :: calls[i].marker != key
    ensures exists i :: 0 <= i < |calls| && calls[i].marker < key < calls[i].end
  {
    if key < calls[n].marker {
      InSomeRange(calls, n - 1, key);
    }
  }

  lemma AllReached(state: State, markers: seq<Key>, calls: seq<Call>)
    requires Proper(state) && Tiled(calls) && RangesOf(calls, markers)
    requires forall k | k in state :: k !in markers
    requires forall i | 0 <= i < |calls| :: calls[i].done
    ensures forall k | k in state :: Reached(calls, k)
  {
    forall k | k in state ensures Reached(calls, k) {
      forall i | 0 <= i < |calls| ensures calls[i].marker != k {
        assert markers[i] in markers;
      }
      InSomeRange(calls, |calls| - 1, k);
      var i :| 0 <= i < |calls| && calls[i].marker < k < calls[i].end;
      assert calls[i].Holds(k);
    }
  }
}
