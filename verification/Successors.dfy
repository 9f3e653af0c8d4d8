// The successor table is a linked list of the live keys, at every ledger.
module Successors {
  import opened Wrappers
  import opened Tables
  import opened Ledger
  import opened SimpleCaches
  import opened BuildLedger

  // From the start of the ledger and from every live key, the newest record is the true successor.
  ghost predicate ChainAt(table: Table<Key, Key>, keys: set<Key>, ledger: nat) {
    forall k {:trigger SelectLatest(table, k, ledger)} | k == FIRST_KEY || k in keys ::
      SelectLatest(table, k, ledger) == Some(Next(keys, k))
  }

  // Follows records, up to and including the end of the ledger.
  function Walk(table: Table<Key, Key>, key: Key, ledger: nat, steps: nat): seq<Key>
    decreases steps
  {
    if steps == 0 then []
    else
      match SelectLatest(table, key, ledger)
      case None => []
      case Some(n) => if n == LAST_KEY then [n] else [n] + Walk(table, n, ledger, steps - 1)
  }

  // Following records from the start visits the live keys in ascending order and then the end.
  lemma {:induction false} WalkIsLedger(table: Table<Key, Key>, keys: set<Key>, key: Key, ledger: nat, steps: nat)
    requires ChainAt(table, keys, ledger) && LAST_KEY !in keys
    requires key == FIRST_KEY || key in keys
    requires steps > |KeysAfter(keys, key)|
    ensures Walk(table, key, ledger, steps) == KeysAfter(keys, key) + [LAST_KEY]
    decreases steps
  {
    assert SelectLatest(table, key, ledger) == Some(Next(keys, key));
    var n := Next(keys, key);
    if n != LAST_KEY {
      WalkIsLedger(table, keys, n, ledger, steps - 1);
    }
  }

  /* What the writes of one ledger are */

  // The records that tie an object to its neighbours in the new ledger.
  function EdgesOf(o: LedgerObject, keys: set<Key>): seq<Edge> {
    var p, s := Prev(keys, o.key), Next(keys, o.key);
    if o.blob == Empty then [Row(p, s)] else [Row(p, o.key), Row(o.key, s)]
  }

  function LedgerEdges(objs: seq<LedgerObject>, modified: set<Key>, keys: set<Key>): seq<Edge> {
    if objs == [] then []
    else
      var o := objs[|objs| - 1];
      LedgerEdges(objs[..|objs| - 1], modified, keys) + if o.key in modified then [] else EdgesOf(o, keys)
  }

  // The cache holds exactly this state, as of this ledger.
  ghost predicate Mirrors(c: CacheState, state: State, ledger: nat) {
    && c.full && !c.disabled && c.latest == ledger
    && c.entries.Keys == state.Keys
    && forall k | k in c.entries :: c.entries[k].blob == state[k] && c.entries[k].ledger <= ledger
  }

  lemma MirrorNeighbours(c: CacheState, state: State, ledger: nat, key: Key)
    requires Mirrors(c, state, ledger) && Proper(state)
    ensures CachedNext(c, key, ledger) == Next(state.Keys, key)
    ensures CachedPrev(c, key, ledger) == Prev(state.Keys, key)
    ensures CachedSuccessor(c, key, ledger).Some? <==> Next(state.Keys, key) != LAST_KEY
    ensures Cached(c, key, ledger) == if key in state then Some(state[key]) else None
  {
    var s, p := CachedSuccessor(c, key, ledger), CachedPredecessor(c, key, ledger);
    if s.Some? {
      assert IsNext(c.entries.Keys, key, s.value.key);
    }
    if p.Some? {
      assert IsPrev(c.entries.Keys, key, p.value.key);
    }
  }

  // Applying a ledger to a full cache keeps it equal to the latest state.
  lemma MirrorStep(c: CacheState, state: State, objs: seq<LedgerObject>, ledger: nat)
    requires Mirrors(c, state, ledger) && Distinct(objs)
    ensures Mirrors(Updated(c, objs, ledger + 1, false), Apply(state, objs), ledger + 1)
  {
    var d := Updated(c, objs, ledger + 1, false);
    var start := c.(latest := ledger + 1);
    StoreAllRest(start, objs, ledger + 1, false);
    forall k
      ensures k in d.entries <==> k in Apply(state, objs)
      ensures k in d.entries ==> d.entries[k].blob == Apply(state, objs)[k] && d.entries[k].ledger <= ledger + 1
    {
      if Touches(objs, k) {
        var o :| o in objs && o.key == k;
        StoreAllTouched(start, objs, ledger + 1, false, o);
        ApplyTouched(state, objs, o);
      } else {
        StoreAllUntouched(start, objs, ledger + 1, false, k);
        ApplyUntouched(state, objs, k);
        assert k in state ==> Lookup(state, k) == state[k];
        assert k in d.entries ==> EntryAt(d.entries, k) == d.entries[k] && EntryAt(c.entries, k) == c.entries[k];
      }
    }
  }

  lemma {:induction false} CacheEdgesAreLedgerEdges(
    objs: seq<LedgerObject>, modified: set<Key>, c: CacheState, state: State, ledger: nat)
    requires Mirrors(c, state, ledger) && Proper(state)
    ensures CacheEdges(objs, modified, c, ledger) == LedgerEdges(objs, modified, state.Keys)
  {
    if objs != [] {
      CacheEdgesAreLedgerEdges(objs[..|objs| - 1], modified, c, state, ledger);
      MirrorNeighbours(c, state, ledger, objs[|objs| - 1].key);
    }
  }

  // MODIFIED is only said of objects that were there before and still are.
  ghost predicate HonestDiff(raw: RawLedger, state: State) {
    && Distinct(Updates(raw.objects))
    && forall o | o in raw.objects ::
      && FIRST_KEY < o.key < LAST_KEY
      && (o.mod == MODIFIED ==> o.key in state && o.data != Empty)
  }

  // The neighbours sent along are the true ones in the new ledger.
  ghost predicate HonestNeighbors(raw: RawLedger, keys: set<Key>) {
    && (forall o | o in raw.objects && o.mod != MODIFIED ::
          && (o.mod == DELETED <==> o.data == Empty)
          && KeyOr(o.predecessor, FIRST_KEY) == Prev(keys, o.key)
          && KeyOr(o.successor, LAST_KEY) == Next(keys, o.key))
    && (forall b | b in raw.books && (b.base == FIRST_KEY || b.base in keys) ::
          KeyOr(b.first, LAST_KEY) == Next(keys, b.base))
  }

  lemma OneNeighborEdge(o: RawObject, modified: set<Key>, keys: set<Key>)
    requires o.mod == MODIFIED <==> o.key in modified
    requires o.mod != MODIFIED ==>
      && (o.mod == DELETED <==> o.data == Empty)
      && KeyOr(o.predecessor, FIRST_KEY) == Prev(keys, o.key) && KeyOr(o.successor, LAST_KEY) == Next(keys, o.key)
    ensures NeighborEdgesOf(o) == if o.key in modified then [] else EdgesOf(LedgerObject(o.key, o.data), keys)
  {
  }

  lemma {:induction false} NeighborEdgesAreLedgerEdges(objs: seq<RawObject>, modified: set<Key>, keys: set<Key>)
    requires forall o | o in objs :: o.mod == MODIFIED <==> o.key in modified
    requires forall o | o in objs && o.mod != MODIFIED ::
      && (o.mod == DELETED <==> o.data == Empty)
      && KeyOr(o.predecessor, FIRST_KEY) == Prev(keys, o.key)
      && KeyOr(o.successor, LAST_KEY) == Next(keys, o.key)
    ensures NeighborEdges(objs) == LedgerEdges(Updates(objs), modified, keys)
  {
    if objs != [] {
      var last := |objs| - 1;
      NeighborEdgesAreLedgerEdges(objs[..last], modified, keys);
      assert Updates(objs)[..last] == Updates(objs[..last]);
      OneNeighborEdge(objs[last], modified, keys) by { assert objs[last] in objs; }
    }
  }

  /* Those writes are true, and enough */

  lemma NextOfPrev(keys: set<Key>, key: Key)
    requires FIRST_KEY < key < LAST_KEY && LAST_KEY !in keys
    ensures Next(keys, Prev(keys, key)) == if key in keys then key else Next(keys, key)
  {
  }

  lemma {:induction false} EdgesAreTrue(objs: seq<LedgerObject>, modified: set<Key>, keys: set<Key>, r: Edge)
    requires LAST_KEY !in keys
    requires forall o | o in objs :: FIRST_KEY < o.key < LAST_KEY
    requires forall o | o in objs && o.key !in modified :: o.blob == Empty <==> o.key !in keys
    requires r in LedgerEdges(objs, modified, keys)
    ensures r.value == Next(keys, r.key)
  {
    var last := |objs| - 1;
    if r in LedgerEdges(objs[..last], modified, keys) {
      EdgesAreTrue(objs[..last], modified, keys, r);
    } else {
      assert objs[last] in objs;
      NextOfPrev(keys, objs[last].key);
    }
  }

  lemma {:induction false} EdgesHave(objs: seq<LedgerObject>, modified: set<Key>, keys: set<Key>, o: LedgerObject)
    requires o in objs && o.key !in modified
    ensures forall r | r in EdgesOf(o, keys) :: r in LedgerEdges(objs, modified, keys)
  {
    var last := |objs| - 1;
    if objs[last] != o {
      EdgesHave(objs[..last], modified, keys, o);
    }
  }

  ghost predicate HasEdge(rows: seq<Edge>, key: Key) {
    exists r :: r in rows && r.key == key
  }

  lemma EdgeWritten(objs: seq<LedgerObject>, modified: set<Key>, keys: set<Key>, o: LedgerObject, key: Key)
    requires o in objs && o.key !in modified
    requires key == Prev(keys, o.key) || (key == o.key && o.blob != Empty)
    ensures HasEdge(LedgerEdges(objs, modified, keys), key)
  {
    EdgesHave(objs, modified, keys, o);
    var r := EdgesOf(o, keys)[if key == Prev(keys, o.key) then 0 else 1];
    assert r in EdgesOf(o, keys) && r.key == key;
  }

  // Every live key either gets a record, or was live before and keeps its successor.
  lemma WrittenOrSame(raw: RawLedger, state: State, key: Key)
    requires HonestDiff(raw, state) && Proper(state)
    requires key == FIRST_KEY || key in Apply(state, Updates(raw.objects))
    ensures var after := Apply(state, Updates(raw.objects)).Keys;
      || HasEdge(LedgerEdges(Updates(raw.objects), Modified(raw.objects), after), key)
      || ((key == FIRST_KEY || key in state) && Next(state.Keys, key) == Next(after, key))
  {
    var objs, modified := Updates(raw.objects), Modified(raw.objects);
    var before, after := state.Keys, Apply(state, objs).Keys;
    var a, b := Next(before, key), Next(after, key);
    if key != FIRST_KEY && key !in state {
      var o := ChangedObject(raw, state, key);
      EdgeWritten(objs, modified, after, o, key);
    } else if a < b {
      var o := ChangedObject(raw, state, a);
      EdgeWritten(objs, modified, after, o, key);
    } else if b < a {
      var o := ChangedObject(raw, state, b);
      EdgeWritten(objs, modified, after, o, key);
    }
  }

  lemma {:induction false} EdgesFrom(objs: seq<LedgerObject>, modified: set<Key>, keys: set<Key>, r: Edge)
    requires r in LedgerEdges(objs, modified, keys)
    ensures exists o :: o in objs && o.key !in modified && r in EdgesOf(o, keys)
  {
    var last := |objs| - 1;
    if r in LedgerEdges(objs[..last], modified, keys) {
      EdgesFrom(objs[..last], modified, keys, r);
    } else {
      assert objs[last] in objs;
    }
  }

  // An object that comes or goes changes the successor of the key before it.
  lemma EdgeIsChange(state: State, after: State, o: LedgerObject, key: Key)
    requires Proper(state) && Proper(after) && FIRST_KEY < o.key < LAST_KEY
    requires o.key in state <==> o.key !in after
    requires o.blob == Empty <==> o.key !in after
    requires exists r :: r in EdgesOf(o, after.Keys) && r.key == key
    requires key == FIRST_KEY || key in state
    ensures Next(state.Keys, key) != Next(after.Keys, key)
  {
    var r :| r in EdgesOf(o, after.Keys) && r.key == key;
    NextOfPrev(after.Keys, o.key);
  }

  // A key that is live afterwards gets a record if and only if it is new or its successor has
  // changed, when objects are called modified exactly if they were there before and still are.
  lemma WrittenIffChanged(raw: RawLedger, state: State, key: Key)
    requires HonestDiff(raw, state) && Proper(state)
    requires forall o | o in raw.objects && o.mod != MODIFIED :: o.data == Empty <==> o.key in state
    requires key == FIRST_KEY || key in Apply(state, Updates(raw.objects))
    ensures var after := Apply(state, Updates(raw.objects)).Keys;
      HasEdge(LedgerEdges(Updates(raw.objects), Modified(raw.objects), after), key)
      <==> (key != FIRST_KEY && key !in state) || Next(state.Keys, key) != Next(after, key)
  {
    var objs, modified := Updates(raw.objects), Modified(raw.objects);
    var after := Apply(state, objs);
    WrittenOrSame(raw, state, key);
    DiffLiveness(raw, state);
    ApplyProper(state, objs);
    if HasEdge(LedgerEdges(objs, modified, after.Keys), key) && (key == FIRST_KEY || key in state) {
      var r :| r in LedgerEdges(objs, modified, after.Keys) && r.key == key;
      EdgesFrom(objs, modified, after.Keys, r);
      var o :| o in objs && o.key !in modified && r in EdgesOf(o, after.Keys);
      var i :| 0 <= i < |objs| && objs[i] == o;
      assert raw.objects[i] in raw.objects;
      EdgeIsChange(state, after, o, key);
    }
  }

  // A key live on one side only is in the diff, and not as a modification.
  lemma ChangedObject(raw: RawLedger, state: State, key: Key) returns (o: LedgerObject)
    requires HonestDiff(raw, state)
    requires key in state <==> key !in Apply(state, Updates(raw.objects))
    ensures o in Updates(raw.objects) && o.key == key && key !in Modified(raw.objects)
    ensures o.blob == Empty <==> key in state
  {
    var objs := Updates(raw.objects);
    assert Touches(objs, key) by {
      if !Touches(objs, key) {
        ApplyUntouched(state, objs, key);
      }
    }
    o :| o in objs && o.key == key;
    ApplyTouched(state, objs, o);
    var j :| 0 <= j < |objs| && objs[j] == o;
    forall q | q in raw.objects && q.key == key ensures q.mod != MODIFIED {
      var i :| 0 <= i < |raw.objects| && raw.objects[i] == q;
      assert objs[i].key == objs[j].key;
      assert i == j;
    }
  }

  lemma ModifiedExactly(raw: RawLedger, state: State)
    requires HonestDiff(raw, state)
    ensures forall o | o in raw.objects :: o.mod == MODIFIED <==> o.key in Modified(raw.objects)
  {
    forall o | o in raw.objects && o.key in Modified(raw.objects) ensures o.mod == MODIFIED {
      var q :| q in raw.objects && q.mod == MODIFIED && q.key == o.key;
      var i :| 0 <= i < |raw.objects| && raw.objects[i] == q;
      var j :| 0 <= j < |raw.objects| && raw.objects[j] == o;
      assert Updates(raw.objects)[i].key == Updates(raw.objects)[j].key;
    }
  }

  lemma DiffLiveness(raw: RawLedger, state: State)
    requires HonestDiff(raw, state)
    ensures var objs, after := Updates(raw.objects), Apply(state, Updates(raw.objects)).Keys;
      forall o | o in objs :: FIRST_KEY < o.key < LAST_KEY && (o.blob == Empty <==> o.key !in after)
  {
    var objs := Updates(raw.objects);
    forall o | o in objs
      ensures FIRST_KEY < o.key < LAST_KEY && (o.blob == Empty <==> o.key !in Apply(state, objs))
    {
      var i :| 0 <= i < |objs| && objs[i] == o;
      assert raw.objects[i] in raw.objects;
      ApplyTouched(state, objs, o);
    }
  }

  /* The list at every ledger */

  // Rows of the ledger being built that an earlier attempt left behind, if any, are true.
  ghost predicate EarlierRowsTrue(table: Table<Key, Key>, keys: set<Key>, ledger: nat) {
    forall k {:trigger (k, ledger) in table} | (k, ledger) in table && (k == FIRST_KEY || k in keys) ::
      table[(k, ledger)] == Next(keys, k)
  }

  // One ledger's worth of records, by either way of computing them.
  ghost predicate Builds(
    table: Table<Key, Key>, table': Table<Key, Key>, state: State, state': State, ledger: nat,
    raw: RawLedger, c: CacheState)
  {
    && raw.number == ledger > 0
    && HonestDiff(raw, state) && Proper(state)
    && state' == Apply(state, Updates(raw.objects))
    && (if raw.neighborsIncluded then HonestNeighbors(raw, state'.Keys) else Mirrors(c, state, ledger - 1))
    && EarlierRowsTrue(table, state'.Keys, ledger)
    && table' == SuccessorAfter(table, c, Updated(c, Updates(raw.objects), ledger, false), raw)
  }

  lemma {:induction false} InsertedValue(table: Table<Key, Key>, ledger: nat, rows: seq<Edge>, key: Key)
    ensures HasEdge(rows, key) ==>
      (key, ledger) in Insert(table, ledger, rows)
      && exists r :: r in rows && r.key == key && r.value == Insert(table, ledger, rows)[(key, ledger)]
  {
    if rows != [] && rows[|rows| - 1].key == key {
      assert rows[|rows| - 1] in rows;
    } else if rows != [] {
      InsertedValue(table, ledger, rows[..|rows| - 1], key);
    }
  }

  // The records of the diff are true of the new ledger.
  lemma LedgerEdgesTrue(raw: RawLedger, state: State, r: Edge)
    requires HonestDiff(raw, state) && Proper(state)
    requires r in LedgerEdges(Updates(raw.objects), Modified(raw.objects), Apply(state, Updates(raw.objects)).Keys)
    ensures r.value == Next(Apply(state, Updates(raw.objects)).Keys, r.key)
  {
    DiffLiveness(raw, state);
    ApplyProper(state, Updates(raw.objects));
    EdgesAreTrue(Updates(raw.objects), Modified(raw.objects), Apply(state, Updates(raw.objects)).Keys, r);
  }

  // The record a live key has at the new ledger is true; without one nothing has changed.
  ghost predicate RowIsTrue(table': Table<Key, Key>, state: State, keys: set<Key>, ledger: nat, key: Key) {
    if (key, ledger) in table' then
      table'[(key, ledger)] == Next(keys, key)
    else
      (key == FIRST_KEY || key in state) && Next(state.Keys, key) == Next(keys, key)
  }

  lemma NeighborRow(table: Table<Key, Key>, state: State, raw: RawLedger, key: Key)
    requires HonestDiff(raw, state) && Proper(state)
    requires var keys := Apply(state, Updates(raw.objects)).Keys;
      HonestNeighbors(raw, keys) && EarlierRowsTrue(table, keys, raw.number) && (key == FIRST_KEY || key in keys)
    ensures var keys := Apply(state, Updates(raw.objects)).Keys;
      RowIsTrue(Insert(table, raw.number, BookEdges(raw.books) + NeighborEdges(raw.objects)), state, keys, raw.number, key)
  {
    var objs, modified := Updates(raw.objects), Modified(raw.objects);
    var keys := Apply(state, objs).Keys;
    var books := BookEdges(raw.books);
    WrittenOrSame(raw, state, key);
    ModifiedExactly(raw, state);
    NeighborEdgesAreLedgerEdges(raw.objects, modified, keys);
    forall r | r in books + NeighborEdges(raw.objects) && r.key == key ensures r.value == Next(keys, key) {
      if r in books {
        var i :| 0 <= i < |raw.books| && books[i] == r;
        assert raw.books[i] in raw.books;
      } else {
        LedgerEdgesTrue(raw, state, r);
      }
    }
    InsertedRow(table, raw.number, books, NeighborEdges(raw.objects), keys, key);
  }

  // The records computed from the cache are true, and a live key without one keeps its successor.
  lemma CacheEdgesRow(table: Table<Key, Key>, state: State, raw: RawLedger, c: CacheState, key: Key)
    requires HonestDiff(raw, state) && Proper(state) && raw.number > 0 && Mirrors(c, state, raw.number - 1)
    requires var keys := Apply(state, Updates(raw.objects)).Keys;
      EarlierRowsTrue(table, keys, raw.number) && (key == FIRST_KEY || key in keys)
    ensures var after := Updated(c, Updates(raw.objects), raw.number, false);
      var t := Insert(table, raw.number, CacheEdges(Updates(raw.objects), Modified(raw.objects), after, raw.number));
      RowIsTrue(t, state, Apply(state, Updates(raw.objects)).Keys, raw.number, key)
  {
    var objs, modified := Updates(raw.objects), Modified(raw.objects);
    var state' := Apply(state, objs);
    ApplyProper(state, objs) by { DiffLiveness(raw, state); }
    MirrorStep(c, state, objs, raw.number - 1);
    CacheEdgesAreLedgerEdges(objs, modified, Updated(c, objs, raw.number, false), state', raw.number);
    WrittenOrSame(raw, state, key);
    var edges := LedgerEdges(objs, modified, state'.Keys);
    assert [] + edges == edges;
    forall r | r in [] + edges && r.key == key ensures r.value == Next(state'.Keys, key) {
      LedgerEdgesTrue(raw, state, r);
    }
    InsertedRow(table, raw.number, [], edges, state'.Keys, key);
  }

  lemma CacheRow(table: Table<Key, Key>, state: State, raw: RawLedger, c: CacheState, key: Key)
    requires HonestDiff(raw, state) && Proper(state) && raw.number > 0
    requires Mirrors(c, state, raw.number - 1) && !raw.neighborsIncluded
    requires var keys := Apply(state, Updates(raw.objects)).Keys;
      EarlierRowsTrue(table, keys, raw.number) && (key == FIRST_KEY || key in keys)
    ensures var after := Updated(c, Updates(raw.objects), raw.number, false);
      RowIsTrue(SuccessorAfter(table, c, after, raw), state, Apply(state, Updates(raw.objects)).Keys, raw.number, key)
  {
    var state' := Apply(state, Updates(raw.objects));
    CacheEdgesRow(table, state, raw, c, key);
    ApplyProper(state, Updates(raw.objects)) by { DiffLiveness(raw, state); }
    MirrorStep(c, state, Updates(raw.objects), raw.number - 1);
    MirrorNeighbours(Updated(c, Updates(raw.objects), raw.number, false), state', raw.number, key);
  }

  lemma LedgerRow(
    table: Table<Key, Key>, table': Table<Key, Key>, state: State, state': State, ledger: nat,
    raw: RawLedger, c: CacheState, key: Key)
    requires Builds(table, table', state, state', ledger, raw, c)
    requires key == FIRST_KEY || key in state'
    ensures RowIsTrue(table', state, state'.Keys, ledger, key)
  {
    if raw.neighborsIncluded {
      NeighborRow(table, state, raw, key);
    } else {
      CacheRow(table, state, raw, c, key);
    }
  }

  lemma InsertedRow(table: Table<Key, Key>, ledger: nat, first: seq<Edge>, edges: seq<Edge>, keys: set<Key>, key: Key)
    requires forall r | r in first + edges && r.key == key :: r.value == Next(keys, key)
    requires (key, ledger) in table ==> table[(key, ledger)] == Next(keys, key)
    ensures var t := Insert(table, ledger, first + edges);
      && ((key, ledger) in t ==> t[(key, ledger)] == Next(keys, key))
      && ((key, ledger) !in t ==> !HasEdge(edges, key))
  {
    var rows := first + edges;
    InsertedValue(table, ledger, rows, key);
    if HasEdge(edges, key) {
      var r :| r in edges && r.key == key;
      assert r in rows;
    }
    if !HasEdge(rows, key) {
      InsertOther(table, ledger, rows, key, ledger);
    }
  }

  // The list stays true at the new ledger, whichever way its records were computed.
  lemma BuildKeepsChain(
    table: Table<Key, Key>, table': Table<Key, Key>, state: State, state': State, ledger: nat,
    raw: RawLedger, c: CacheState)
    requires Builds(table, table', state, state', ledger, raw, c)
    requires ChainAt(table, state.Keys, ledger - 1)
    ensures ChainAt(table', state'.Keys, ledger)
  {
    forall k: Key | k == FIRST_KEY || k in state'
      ensures SelectLatest(table', k, ledger) == Some(Next(state'.Keys, k))
    {
      BuildKeepsLink(table, table', state, state', ledger, raw, c, k);
    }
  }

  lemma BuildKeepsLink(
    table: Table<Key, Key>, table': Table<Key, Key>, state: State, state': State, ledger: nat,
    raw: RawLedger, c: CacheState, key: Key)
    requires Builds(table, table', state, state', ledger, raw, c)
    requires ChainAt(table, state.Keys, ledger - 1) && (key == FIRST_KEY || key in state')
    ensures SelectLatest(table', key, ledger) == Some(Next(state'.Keys, key))
  {
    LedgerRow(table, table', state, state', ledger, raw, c, key);
    if (key, ledger) !in table' {
      SuccessorOnly(table, c, Updated(c, Updates(raw.objects), ledger, false), raw);
      OtherLookups(table, table', ledger, key, ledger - 1);
      assert SelectLatest(table, key, ledger - 1) == Some(Next(state.Keys, key));
    }
  }

  // Lookups below the ledger being written are not disturbed.
  lemma OtherLookups<V>(table: Table<Key, V>, table': Table<Key, V>, ledger: nat, key: Key, t: nat)
    requires Others(table', ledger) == Others(table, ledger) && t < ledger
    ensures SelectLatest(table', key, t) == SelectLatest(table, key, t)
  {
    forall s: nat | s <= t
      ensures (key, s) in table' <==> (key, s) in table
      ensures (key, s) in table' ==> table'[(key, s)] == table[(key, s)]
    {
      assert (key, s) in table' <==> (key, s) in Others(table', ledger);
      assert (key, s) in table <==> (key, s) in Others(table, ledger);
    }
    SelectLatestFrame(table', table, key, t);
  }

  lemma BuildKeepsOlderChains(
    table: Table<Key, Key>, table': Table<Key, Key>, state: State, state': State, ledger: nat,
    raw: RawLedger, c: CacheState, keys: set<Key>, t: nat)
    requires Builds(table, table', state, state', ledger, raw, c)
    requires ChainAt(table, keys, t) && t < ledger
    ensures ChainAt(table', keys, t)
  {
    SuccessorOnly(table, c, Updated(c, Updates(raw.objects), ledger, false), raw);
    forall k: Key | k == FIRST_KEY || k in keys ensures SelectLatest(table', k, t) == Some(Next(keys, k)) {
      OtherLookups(table, table', ledger, k, t);
    }
  }

  // A run of consecutive ledgers after `base`.
  ghost predicate BuildRun(
    tables: seq<Table<Key, Key>>, states: seq<State>, raws: seq<RawLedger>, caches: seq<CacheState>, base: nat)
  {
    && |tables| == |states| == |raws| + 1 == |caches| + 1
    && ChainAt(tables[0], states[0].Keys, base)
    && forall i | 0 <= i < |raws| ::
         Builds(tables[i], tables[i + 1], states[i], states[i + 1], base + i + 1, raws[i], caches[i])
  }

  // At every committed ledger of every run the table lists that ledger's keys.
  lemma {:induction false} ChainAtEveryLedger(
    tables: seq<Table<Key, Key>>, states: seq<State>, raws: seq<RawLedger>, caches: seq<CacheState>,
    base: nat, n: nat, t: nat)
    requires BuildRun(tables, states, raws, caches, base)
    requires t <= n <= |raws|
    ensures ChainAt(tables[n], states[t].Keys, base + t)
  {
    if n > 0 {
      var i := n - 1;
      assert Builds(tables[i], tables[i + 1], states[i], states[i + 1], base + i + 1, raws[i], caches[i]);
      if t == n {
        ChainAtEveryLedger(tables, states, raws, caches, base, i, i);
        BuildKeepsChain(tables[i], tables[n], states[i], states[n], base + n, raws[i], caches[i]);
      } else {
        ChainAtEveryLedger(tables, states, raws, caches, base, i, t);
        BuildKeepsOlderChains(
          tables[i], tables[n], states[i], states[n], base + n, raws[i], caches[i], states[t].Keys, base + t);
      }
    }
  }

  // The two ways of computing records answer every live lookup alike.
  lemma BranchesAgree(
    table: Table<Key, Key>, a: Table<Key, Key>, b: Table<Key, Key>, state: State, state': State, ledger: nat,
    withNeighbors: RawLedger, fromCache: RawLedger, c: CacheState, key: Key, t: nat)
    requires withNeighbors.neighborsIncluded && !fromCache.neighborsIncluded
    requires Builds(table, a, state, state', ledger, withNeighbors, c)
    requires Builds(table, b, state, state', ledger, fromCache, c)
    requires ChainAt(table, state.Keys, ledger - 1)
    requires t <= ledger && (t == ledger ==> key == FIRST_KEY || key in state')
    ensures SelectLatest(a, key, t) == SelectLatest(b, key, t)
  {
    if t == ledger {
      BuildKeepsChain(table, a, state, state', ledger, withNeighbors, c);
      BuildKeepsChain(table, b, state, state', ledger, fromCache, c);
      assert SelectLatest(a, key, t) == Some(Next(state'.Keys, key));
    } else {
      SuccessorOnly(table, c, Updated(c, Updates(withNeighbors.objects), ledger, false), withNeighbors);
      SuccessorOnly(table, c, Updated(c, Updates(fromCache.objects), ledger, false), fromCache);
      OtherLookups(table, a, ledger, key, t);
      OtherLookups(table, b, ledger, key, t);
    }
  }

  /* The order of writes */

  // The rows one build sends, list and books alike.
  ghost predicate Written(raw: RawLedger, before: CacheState, after: CacheState, r: Edge)
    requires raw.number > 0
  {
    if raw.neighborsIncluded then
      r in BookEdges(raw.books) + NeighborEdges(raw.objects)
    else
      || r in CacheEdges(Updates(raw.objects), Modified(raw.objects), after, raw.number)
      || (r.key in BooksToCalculate(raw.objects, before, raw.number - 1) && r.value == CachedNext(after, r.key, raw.number))
  }

  // No book is sent along twice with different first directories.
  ghost predicate BooksAgree(books: seq<BookSuccessor>) {
    forall a, b | a in books && b in books && a.base == b.base :: a.first == b.first
  }

  lemma NeighborRowsAgree(raw: RawLedger, state: State, r: Edge, q: Edge)
    requires HonestDiff(raw, state) && Proper(state) && BooksAgree(raw.books)
    requires HonestNeighbors(raw, Apply(state, Updates(raw.objects)).Keys)
    requires r in BookEdges(raw.books) + NeighborEdges(raw.objects) && q in NeighborEdges(raw.objects) && r.key == q.key
    ensures r.value == q.value
  {
    var keys := Apply(state, Updates(raw.objects)).Keys;
    ModifiedExactly(raw, state);
    NeighborEdgesAreLedgerEdges(raw.objects, Modified(raw.objects), keys);
    LedgerEdgesTrue(raw, state, q);
    if r in NeighborEdges(raw.objects) {
      LedgerEdgesTrue(raw, state, r);
    } else {
      var i :| 0 <= i < |raw.books| && BookEdges(raw.books)[i] == r;
      assert raw.books[i] in raw.books;
      EdgeKeysAreLive(raw, state, q);
    }
  }

  // A list record belongs to a live key or to the start of the ledger.
  lemma EdgeKeysAreLive(raw: RawLedger, state: State, q: Edge)
    requires HonestDiff(raw, state)
    requires var keys := Apply(state, Updates(raw.objects)).Keys;
      q in LedgerEdges(Updates(raw.objects), Modified(raw.objects), keys)
    ensures q.key == FIRST_KEY || q.key in Apply(state, Updates(raw.objects))
  {
    DiffLiveness(raw, state);
    EdgeKeys(Updates(raw.objects), Modified(raw.objects), Apply(state, Updates(raw.objects)).Keys, q);
  }

  lemma {:induction false} EdgeKeys(objs: seq<LedgerObject>, modified: set<Key>, keys: set<Key>, q: Edge)
    requires forall o | o in objs :: o.blob == Empty <==> o.key !in keys
    requires q in LedgerEdges(objs, modified, keys)
    ensures q.key == FIRST_KEY || q.key in keys
  {
    var last := |objs| - 1;
    assert objs[last] in objs;
    if q in LedgerEdges(objs[..last], modified, keys) {
      EdgeKeys(objs[..last], modified, keys, q);
    }
  }

  lemma NeighborRowsInAnyOrder(table: Table<Key, Key>, raw: RawLedger, state: State, landed: seq<Edge>)
    requires HonestDiff(raw, state) && Proper(state) && BooksAgree(raw.books)
    requires HonestNeighbors(raw, Apply(state, Updates(raw.objects)).Keys)
    requires forall r :: r in landed <==> r in BookEdges(raw.books) + NeighborEdges(raw.objects)
    ensures Insert(table, raw.number, landed)
      == Insert(table, raw.number, BookEdges(raw.books) + NeighborEdges(raw.objects))
  {
    var books := BookEdges(raw.books);
    var rows := books + NeighborEdges(raw.objects);
    forall r, q | r in rows && q in rows && r.key == q.key ensures r.value == q.value {
      if q in NeighborEdges(raw.objects) {
        NeighborRowsAgree(raw, state, r, q);
      } else if r in NeighborEdges(raw.objects) {
        NeighborRowsAgree(raw, state, q, r);
      } else {
        var i :| 0 <= i < |raw.books| && books[i] == r;
        var j :| 0 <= j < |raw.books| && books[j] == q;
        assert raw.books[i] in raw.books && raw.books[j] in raw.books;
      }
    }
    InsertAnyOrder(table, raw.number, rows, landed);
  }

  // Every row computed from the cache is the true successor of its key, a book's base included.
  lemma CacheRowIsTrue(raw: RawLedger, state: State, c: CacheState, r: Edge)
    requires raw.number > 0 && HonestDiff(raw, state) && Proper(state) && Mirrors(c, state, raw.number - 1)
    requires !raw.neighborsIncluded && Written(raw, c, Updated(c, Updates(raw.objects), raw.number, false), r)
    ensures r.value == Next(Apply(state, Updates(raw.objects)).Keys, r.key)
  {
    var objs := Updates(raw.objects);
    var state', after := Apply(state, objs), Updated(c, objs, raw.number, false);
    ApplyProper(state, objs) by { DiffLiveness(raw, state); }
    MirrorStep(c, state, objs, raw.number - 1);
    CacheEdgesAreLedgerEdges(objs, Modified(raw.objects), after, state', raw.number);
    if r in CacheEdges(objs, Modified(raw.objects), after, raw.number) {
      LedgerEdgesTrue(raw, state, r);
    } else {
      MirrorNeighbours(after, state', raw.number, r.key);
    }
  }

  // The rows with books written last are those in any order.
  lemma BooksInAnyOrder(
    table: Table<Key, Key>, ledger: nat, edges: seq<Edge>, bases: set<Key>, c: CacheState, landed: seq<Edge>)
    requires forall r :: r in landed <==> r in edges || (r.key in bases && r.value == CachedNext(c, r.key, ledger))
    requires Consistent(landed)
    ensures Insert(table, ledger, landed) == Insert(table, ledger, edges) + BookRows(bases, c, ledger)
  {
    var a, b := Insert(table, ledger, landed), Insert(table, ledger, edges) + BookRows(bases, c, ledger);
    forall key: Key, s: nat
      ensures (key, s) in a <==> (key, s) in b
      ensures (key, s) in a ==> a[(key, s)] == b[(key, s)]
    {
      if s == ledger && key in bases {
        InsertHit(table, ledger, landed, Row(key, CachedNext(c, key, ledger)));
      } else if s == ledger && HasEdge(edges, key) {
        var r :| r in edges && r.key == key;
        InsertHit(table, ledger, landed, r);
        InsertHit(table, ledger, edges, r);
      } else {
        InsertOther(table, ledger, landed, key, s);
        InsertOther(table, ledger, edges, key, s);
      }
    }
    forall p: (Key, nat)
      ensures p in a <==> p in b
      ensures p in a ==> a[p] == b[p]
    {
      assert p == (p.0, p.1);
    }
  }

  // Whichever way they were computed, the rows of one build never contradict each other, so
  // asynchronous writes and retries may land in any order and any number of times.
  lemma WriteOrderIsIrrelevant(table: Table<Key, Key>, raw: RawLedger, state: State, c: CacheState, landed: seq<Edge>)
    requires raw.number > 0 && HonestDiff(raw, state) && Proper(state)
    requires raw.neighborsIncluded ==>
      HonestNeighbors(raw, Apply(state, Updates(raw.objects)).Keys) && BooksAgree(raw.books)
    requires !raw.neighborsIncluded ==> Mirrors(c, state, raw.number - 1)
    requires forall r :: r in landed <==> Written(raw, c, Updated(c, Updates(raw.objects), raw.number, false), r)
    ensures Insert(table, raw.number, landed)
      == SuccessorAfter(table, c, Updated(c, Updates(raw.objects), raw.number, false), raw)
  {
    if raw.neighborsIncluded {
      NeighborRowsInAnyOrder(table, raw, state, landed);
    } else {
      var after := Updated(c, Updates(raw.objects), raw.number, false);
      forall r | r in landed ensures r.value == Next(Apply(state, Updates(raw.objects)).Keys, r.key) {
        CacheRowIsTrue(raw, state, c, r);
      }
      BooksInAnyOrder(
        table, raw.number, CacheEdges(Updates(raw.objects), Modified(raw.objects), after, raw.number),
        BooksToCalculate(raw.objects, c, raw.number - 1), after, landed);
    }
  }
}
