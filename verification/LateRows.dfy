// Rows of a ledger that land when it is already committed: those of a process that lost the race for
// it, or that found it committed when it began.
module LateRows {
  import opened Wrappers
  import opened Tables
  import opened Ledger
  import opened SimpleCaches
  import opened Backends
  import opened BuildLedger
  import opened Successors
  import opened Refinement

  // A record of ledger `t` is true for a live key, or belongs to a book, whose base is no object's key.
  ghost predicate LateRecord(states: seq<State>, t: nat, newest: nat, key: Key, next: Key)
    requires t <= newest < |states|
  {
    if key == FIRST_KEY || key in states[t] then next == Next(states[t].Keys, key)
    else forall u | t <= u <= newest :: key !in states[u]
  }

  // Only rows of ledger `t` land, none is lost, and each that lands is true of that ledger.
  ghost predicate LandsLate(
    states: seq<State>, t: nat, newest: nat, objects: Table<Key, Blob>, successor: Table<Key, Key>,
    objects': Table<Key, Blob>, successor': Table<Key, Key>)
  {
    && t <= newest < |states|
    && Others(objects', t) == Others(objects, t) && Others(successor', t) == Others(successor, t)
    && (forall k: Key {:trigger (k, t) in objects} | (k, t) in objects :: (k, t) in objects')
    && (forall k: Key {:trigger (k, t) in objects'} | (k, t) in objects' :: objects'[(k, t)] == Lookup(states[t], k))
    && (forall k: Key {:trigger (k, t) in successor} | (k, t) in successor :: (k, t) in successor')
    && (forall k: Key {:trigger (k, t) in successor'} | (k, t) in successor' ::
          || ((k, t) in successor && successor[(k, t)] == successor'[(k, t)])
          || LateRecord(states, t, newest, k, successor'[(k, t)]))
  }

  // A lookup finds what it found before, or, where nothing later was found, the row that landed.
  lemma {:induction false} LateLookup<V>(a: Table<Key, V>, b: Table<Key, V>, t: nat, key: Key, u: nat)
    requires Others(b, t) == Others(a, t) && ((key, t) in a ==> (key, t) in b)
    ensures SelectLatest(b, key, u) == SelectLatest(a, key, u)
      || (u >= t && (key, t) in b && SelectLatest(b, key, u) == Some(b[(key, t)])
          && SelectLatest(a, key, u) == SelectLatest(a, key, t))
    decreases u
  {
    if u < t {
      OtherLookups(a, b, t, key, u);
    } else if u > t {
      assert (key, u) in b <==> (key, u) in Others(b, t);
      assert (key, u) in a <==> (key, u) in Others(a, t);
      LateLookup(a, b, t, key, u - 1);
    } else if (key, t) !in b && t > 0 {
      OtherLookups(a, b, t, key, t - 1);
    }
  }

  lemma LateObject(
    states: seq<State>, t: nat, newest: nat, objects: Table<Key, Blob>, successor: Table<Key, Key>,
    objects': Table<Key, Blob>, successor': Table<Key, Key>, u: nat, k: Key)
    requires LandsLate(states, t, newest, objects, successor, objects', successor')
    requires ServedAt(states, objects, successor, t) && ServedAt(states, objects, successor, u)
    ensures DbObject(objects', k, u) == Lookup(states[u], k)
  {
    LateLookup(objects, objects', t, k, u);
    assert DbObject(objects, k, t) == Lookup(states[t], k);
    assert DbObject(objects, k, u) == Lookup(states[u], k);
  }

  lemma LateSuccessor(
    states: seq<State>, t: nat, newest: nat, objects: Table<Key, Blob>, successor: Table<Key, Key>,
    objects': Table<Key, Blob>, successor': Table<Key, Key>, u: nat, k: Key)
    requires LandsLate(states, t, newest, objects, successor, objects', successor') && u <= newest
    requires ServedAt(states, objects, successor, t) && ServedAt(states, objects, successor, u)
    requires k == FIRST_KEY || k in states[u]
    ensures SelectLatest(successor', k, u) == Some(Next(states[u].Keys, k))
  {
    LateLookup(successor, successor', t, k, u);
    assert SelectLatest(successor, k, u) == Some(Next(states[u].Keys, k));
    if k == FIRST_KEY || k in states[t] {
      assert SelectLatest(successor, k, t) == Some(Next(states[t].Keys, k));
    }
  }

  // Rows that land late disturb neither their own ledger nor any other.
  lemma LateServes(
    states: seq<State>, t: nat, newest: nat, objects: Table<Key, Blob>, successor: Table<Key, Key>,
    objects': Table<Key, Blob>, successor': Table<Key, Key>, u: nat)
    requires LandsLate(states, t, newest, objects, successor, objects', successor') && u <= newest
    requires ServedAt(states, objects, successor, t) && ServedAt(states, objects, successor, u)
    ensures ServedAt(states, objects', successor', u)
  {
    forall k: Key ensures DbObject(objects', k, u) == Lookup(states[u], k) {
      LateObject(states, t, newest, objects, successor, objects', successor', u, k);
    }
    forall k: Key | k == FIRST_KEY || k in states[u]
      ensures SelectLatest(successor', k, u) == Some(Next(states[u].Keys, k))
    {
      LateSuccessor(states, t, newest, objects, successor, objects', successor', u, k);
    }
  }

  /* Such are the rows of any process that builds the ledger */

  // The raw ledger is a true account of ledger `raw.number`.
  ghost predicate TrueDiff(states: seq<State>, raw: RawLedger) {
    && 0 < raw.number < |states|
    && HonestDiff(raw, states[raw.number - 1])
    && Apply(states[raw.number - 1], Updates(raw.objects)) == states[raw.number]
    && (raw.neighborsIncluded ==> HonestNeighbors(raw, states[raw.number].Keys))
  }

  // The process has the neighbours, or a cache of the ledger before, or nothing to compute.
  ghost predicate WriterReady(states: seq<State>, raw: RawLedger, c: CacheState)
    requires TrueDiff(states, raw)
  {
    || raw.neighborsIncluded
    || !NeedsCache(raw.objects)
    || Mirrors(c, states[raw.number - 1], raw.number - 1)
  }

  // A ledger of modifications alone writes no records.
  lemma {:induction false} QuietEdges(objs: seq<LedgerObject>, modified: set<Key>, c: CacheState, ledger: nat)
    requires forall o | o in objs :: o.key in modified
    ensures CacheEdges(objs, modified, c, ledger) == []
  {
    if objs != [] {
      QuietEdges(objs[..|objs| - 1], modified, c, ledger);
      assert objs[|objs| - 1] in objs;
    }
  }

  lemma QuietRows(raw: RawLedger, c: CacheState)
    requires raw.number > 0 && !raw.neighborsIncluded && !NeedsCache(raw.objects)
    ensures var after := Updated(c, Updates(raw.objects), raw.number, false);
      CacheEdges(Updates(raw.objects), Modified(raw.objects), after, raw.number) == []
    ensures BooksToCalculate(raw.objects, c, raw.number - 1) == {}
  {
    forall o | o in Updates(raw.objects) ensures o.key in Modified(raw.objects) {
      var i :| 0 <= i < |raw.objects| && Updates(raw.objects)[i] == o;
      assert raw.objects[i] in raw.objects;
    }
    QuietEdges(
      Updates(raw.objects), Modified(raw.objects), Updated(c, Updates(raw.objects), raw.number, false), raw.number);
  }

  // So its rows might as well have been computed from a cache of the ledger before.
  lemma ReadyCache(states: seq<State>, raw: RawLedger, c: CacheState, table: Table<Key, Key>) returns (ready: CacheState)
    requires TrueDiff(states, raw) && WriterReady(states, raw, c)
    ensures raw.neighborsIncluded || Mirrors(ready, states[raw.number - 1], raw.number - 1)
    ensures SuccessorAfter(table, ready, Updated(ready, Updates(raw.objects), raw.number, false), raw)
      == SuccessorAfter(table, c, Updated(c, Updates(raw.objects), raw.number, false), raw)
    ensures raw.neighborsIncluded || NeedsCache(raw.objects) ==> ready == c
  {
    ready := c;
    if !raw.neighborsIncluded && !NeedsCache(raw.objects) {
      ready := CacheOf(states[raw.number - 1], raw.number - 1);
      QuietRows(raw, c);
      QuietRows(raw, ready);
    }
  }

  lemma WrittenIsLate(states: seq<State>, newest: nat, raw: RawLedger, c: CacheState, r: Edge)
    requires TrueDiff(states, raw) && WriterReady(states, raw, c) && Proper(states[raw.number - 1])
    requires Written(raw, c, Updated(c, Updates(raw.objects), raw.number, false), r)
    requires raw.number <= newest < |states|
    requires r.key == FIRST_KEY || r.key in states[raw.number]
      || forall u | raw.number <= u <= newest :: r.key !in states[u]
    ensures LateRecord(states, raw.number, newest, r.key, r.value)
  {
    var state, keys := states[raw.number - 1], states[raw.number].Keys;
    if raw.neighborsIncluded {
      if r in NeighborEdges(raw.objects) {
        ModifiedExactly(raw, state);
        NeighborEdgesAreLedgerEdges(raw.objects, Modified(raw.objects), keys);
        LedgerEdgesTrue(raw, state, r);
      } else {
        var i :| 0 <= i < |raw.books| && BookEdges(raw.books)[i] == r;
        assert raw.books[i] in raw.books;
      }
    } else if NeedsCache(raw.objects) {
      CacheRowIsTrue(raw, state, c, r);
    } else {
      QuietRows(raw, c);
    }
  }

  // Any part of a build's rows, in any order, may land late, provided that no book's base is ever
  // an object's key.
  lemma BuildLandsLate(
    states: seq<State>, newest: nat, raw: RawLedger, c: CacheState, objects: Table<Key, Blob>,
    successor: Table<Key, Key>, landed: seq<Row<Key, Blob>>, edges: seq<Edge>)
    requires TrueDiff(states, raw) && WriterReady(states, raw, c) && Proper(states[raw.number - 1])
    requires raw.number <= newest < |states| && ServedAt(states, objects, successor, raw.number)
    requires forall r | r in landed :: r in ObjectRows(raw.objects)
    requires forall r | r in edges ::
      && Written(raw, c, Updated(c, Updates(raw.objects), raw.number, false), r)
      && (r.key == FIRST_KEY || r.key in states[raw.number]
          || forall u | raw.number <= u <= newest :: r.key !in states[u])
    ensures LandsLate(
      states, raw.number, newest, objects, successor,
      Insert(objects, raw.number, landed), Insert(successor, raw.number, edges))
  {
    var t := raw.number;
    var objects', successor' := Insert(objects, t, landed), Insert(successor, t, edges);
    InsertOnly(objects, t, landed);
    InsertOnly(successor, t, edges);
    forall k: Key
      ensures (k, t) in objects ==> (k, t) in objects'
      ensures (k, t) in objects' ==> objects'[(k, t)] == Lookup(states[t], k)
    {
      InsertedFrom(objects, t, landed, k);
      LandedObject(states, raw, objects, successor, landed, k);
    }
    forall k: Key
      ensures (k, t) in successor ==> (k, t) in successor'
      ensures (k, t) in successor' ==>
        || ((k, t) in successor && successor[(k, t)] == successor'[(k, t)])
        || LateRecord(states, t, newest, k, successor'[(k, t)])
    {
      InsertedFrom(successor, t, edges, k);
      if (k, t) in successor' && Row(k, successor'[(k, t)]) in edges {
        WrittenIsLate(states, newest, raw, c, Row(k, successor'[(k, t)]));
      }
    }
  }

  lemma LandedObject(
    states: seq<State>, raw: RawLedger, objects: Table<Key, Blob>, successor: Table<Key, Key>,
    landed: seq<Row<Key, Blob>>, k: Key)
    requires TrueDiff(states, raw) && ServedAt(states, objects, successor, raw.number)
    requires forall r | r in landed :: r in ObjectRows(raw.objects)
    ensures var table := Insert(objects, raw.number, landed);
      (k, raw.number) in table ==> table[(k, raw.number)] == Lookup(states[raw.number], k)
  {
    var t := raw.number;
    var table := Insert(objects, t, landed);
    InsertedFrom(objects, t, landed, k);
    assert DbObject(objects, k, t) == Lookup(states[t], k);
    if (k, t) in table && Row(k, table[(k, t)]) in landed {
      var i :| 0 <= i < |raw.objects| && ObjectRows(raw.objects)[i] == Row(k, table[(k, t)]);
      var o := Updates(raw.objects)[i];
      ApplyTouched(states[t - 1], Updates(raw.objects), o);
    }
  }
}
