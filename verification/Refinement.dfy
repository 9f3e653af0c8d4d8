// The database and the cache together serve every committed ledger as it was.
module Refinement {
  import opened Wrappers
  import opened Tables
  import opened Ledger
  import opened SimpleCaches
  import opened Pages
  import opened Backends
  import opened BuildLedger
  import opened Successors
  import opened CacheLoad

  // The objects table answers a ledger with that ledger's state.
  ghost predicate ObjectsServe(table: Table<Key, Blob>, state: State, ledger: nat) {
    forall k {:trigger DbObject(table, k, ledger)} :: DbObject(table, k, ledger) == Lookup(state, k)
  }

  // The tables answer ledger `t` with its objects and with the list of its keys.
  ghost predicate ServedAt(states: seq<State>, objects: Table<Key, Blob>, successor: Table<Key, Key>, t: nat) {
    && t < |states|
    && ObjectsServe(objects, states[t], t)
    && ChainAt(successor, states[t].Keys, t)
  }

  lemma {:induction false} InsertedObject(table: Table<Key, Blob>, ledger: nat, objs: seq<RawObject>, o: RawObject)
    requires o in objs && Distinct(Updates(objs))
    ensures (o.key, ledger) in Insert(table, ledger, ObjectRows(objs))
    ensures Insert(table, ledger, ObjectRows(objs))[(o.key, ledger)] == o.data
  {
    var last := |objs| - 1;
    assert ObjectRows(objs)[..last] == ObjectRows(objs[..last]);
    if objs[last] != o {
      var i :| 0 <= i < last && objs[i] == o;
      assert Updates(objs)[i].key != Updates(objs)[last].key;
      assert forall j | 0 <= j < last :: Updates(objs[..last])[j] == Updates(objs)[j];
      InsertedObject(table, ledger, objs[..last], o);
    }
  }

  // Writing a ledger's diff serves the new ledger, and every older one as before.
  lemma BuildKeepsObjects(table: Table<Key, Blob>, state: State, raw: RawLedger)
    requires raw.number > 0 && Distinct(Updates(raw.objects))
    requires ObjectsServe(table, state, raw.number - 1)
    requires forall k: Key | (k, raw.number) in table ::
      table[(k, raw.number)] == Lookup(Apply(state, Updates(raw.objects)), k)
    ensures var table' := Insert(table, raw.number, ObjectRows(raw.objects));
      ObjectsServe(table', Apply(state, Updates(raw.objects)), raw.number)
    ensures var table' := Insert(table, raw.number, ObjectRows(raw.objects));
      forall k: Key, t: nat | t < raw.number :: DbObject(table', k, t) == DbObject(table, k, t)
  {
    var objs := Updates(raw.objects);
    var table' := Insert(table, raw.number, ObjectRows(raw.objects));
    forall k: Key, t: nat | t < raw.number ensures SelectLatest(table', k, t) == SelectLatest(table, k, t) {
      forall s: nat | s <= t
        ensures (k, s) in table' <==> (k, s) in table
        ensures (k, s) in table' ==> table'[(k, s)] == table[(k, s)]
      {
        InsertOther(table, raw.number, ObjectRows(raw.objects), k, s);
      }
      SelectLatestFrame(table', table, k, t);
    }
    forall k: Key ensures DbObject(table', k, raw.number) == Lookup(Apply(state, objs), k) {
      if Touches(objs, k) {
        var o :| o in objs && o.key == k;
        var i :| 0 <= i < |objs| && objs[i] == o;
        InsertedObject(table, raw.number, raw.objects, raw.objects[i]);
        ApplyTouched(state, objs, o);
      } else {
        forall r | r in ObjectRows(raw.objects) ensures r.key != k {
          var i :| 0 <= i < |raw.objects| && ObjectRows(raw.objects)[i] == r;
          assert objs[i] in objs;
        }
        InsertOther(table, raw.number, ObjectRows(raw.objects), k, raw.number);
        ApplyUntouched(state, objs, k);
        assert DbObject(table, k, raw.number - 1) == Lookup(state, k);
      }
    }
  }

  // Rows of the ledger being written that an earlier attempt left behind, if any, are true.
  ghost predicate EarlierObjectsTrue(table: Table<Key, Blob>, state: State, ledger: nat) {
    forall k: Key {:trigger (k, ledger) in table} | (k, ledger) in table :: table[(k, ledger)] == Lookup(state, k)
  }

  // A sound cache over tables that serve a ledger: either may answer.
  lemma EitherMayAnswer(
    objects: Table<Key, Blob>, successor: Table<Key, Key>, c: CacheState, history: seq<State>, state: State, ledger: nat)
    requires CacheSound(c, history) && (c.full ==> CacheExact(c, history))
    requires ledger < |history| ==> history[ledger] == state
    requires Proper(state) && ObjectsServe(objects, state, ledger) && ChainAt(successor, state.Keys, ledger)
    ensures ObjectsServedBy(objects, c, state, ledger)
    ensures SuccessorsServedBy(successor, c, state.Keys, ledger)
  {
    forall k ensures var v := Cached(c, k, ledger); v.Some? ==> v.value != Empty && v.value == Lookup(state, k) {
      SoundReads(c, history, k, ledger);
    }
    forall k: Key | k == FIRST_KEY || k in state ensures DbSuccessor(successor, k, ledger) == NextKey(state.Keys, k) {
      assert SelectLatest(successor, k, ledger) == Some(Next(state.Keys, k));
    }
    forall k ensures var s := CachedSuccessor(c, k, ledger); s.Some? ==> Some(s.value.key) == NextKey(state.Keys, k) {
      if CachedSuccessor(c, k, ledger).Some? {
        ExactNeighbours(c, history, k, ledger);
      }
    }
  }
}
