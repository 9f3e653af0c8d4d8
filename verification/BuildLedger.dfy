// Writing one new ledger: objects, successor records and book records
// (src/etl/ReportingETL.cpp, buildNextLedger).
module BuildLedger {
  import opened Wrappers
  import opened Tables
  import opened Ledger
  import opened SimpleCaches
  import opened Backends

  datatype ModType = CREATED | MODIFIED | DELETED

  // An object of the ledger's diff, with its neighbours when the source sends them.
  datatype RawObject = RawObject(key: Key, data: Blob, mod: ModType, predecessor: Option<Key>, successor: Option<Key>)

  datatype BookSuccessor = BookSuccessor(base: Key, first: Option<Key>)

  datatype RawLedger = RawLedger(
    number: nat,
    neighborsIncluded: bool,
    objects: seq<RawObject>,
    books: seq<BookSuccessor>)

  type Edge = Row<Key, Key>

  function KeyOr(key: Option<Key>, other: Key): Key {
    if key.Some? then key.value else other
  }

  /* What is written, on values */

  function NeighborEdgesOf(o: RawObject): seq<Edge> {
    var p, s := KeyOr(o.predecessor, FIRST_KEY), KeyOr(o.successor, LAST_KEY);
    match o.mod
    case MODIFIED => []
    case DELETED => [Row(p, s)]
    case CREATED => [Row(p, o.key), Row(o.key, s)]
  }

  function NeighborEdges(objs: seq<RawObject>): seq<Edge> {
    if objs == [] then []
    else NeighborEdges(objs[..|objs| - 1]) + NeighborEdgesOf(objs[|objs| - 1])
  }

  function BookEdges(books: seq<BookSuccessor>): seq<Edge> {
    seq(|books|, i requires 0 <= i < |books| => Row(books[i].base, KeyOr(books[i].first, LAST_KEY)))
  }

  function CachedNext(c: CacheState, key: Key, ledger: nat): Key {
    var s := CachedSuccessor(c, key, ledger);
    if s.Some? then s.value.key else LAST_KEY
  }

  function CachedPrev(c: CacheState, key: Key, ledger: nat): Key {
    var p := CachedPredecessor(c, key, ledger);
    if p.Some? then p.value.key else FIRST_KEY
  }

  function CacheEdgesOf(o: LedgerObject, c: CacheState, ledger: nat): seq<Edge> {
    var p, s := CachedPrev(c, o.key, ledger), CachedNext(c, o.key, ledger);
    if o.blob == Empty then [Row(p, s)] else [Row(p, o.key), Row(o.key, s)]
  }

  function CacheEdges(objs: seq<LedgerObject>, modified: set<Key>, c: CacheState, ledger: nat): seq<Edge> {
    if objs == [] then []
    else
      var o := objs[|objs| - 1];
      CacheEdges(objs[..|objs| - 1], modified, c, ledger)
      + if o.key in modified then [] else CacheEdgesOf(o, c, ledger)
  }

  function Updates(objs: seq<RawObject>): seq<LedgerObject> {
    seq(|objs|, i requires 0 <= i < |objs| => LedgerObject(objs[i].key, objs[i].data))
  }

  function ObjectRows(objs: seq<RawObject>): seq<Row<Key, Blob>> {
    seq(|objs|, i requires 0 <= i < |objs| => Row(objs[i].key, objs[i].data))
  }

  function Modified(objs: seq<RawObject>): set<Key> {
    set o | o in objs && o.mod == MODIFIED :: o.key
  }

  // The first directory of the object's book is deleted, or a directory is added before it.
  predicate ChangesFirstDir(o: RawObject, c: CacheState, parent: nat) {
    var was := Cached(c, o.key, parent);
    var oldFirst := CachedSuccessor(c, BookBase(o.key), parent);
    && o.mod != MODIFIED
    && (if o.data == Empty then was.Some? && IsBookDir(was.value) else IsBookDir(o.data))
    && oldFirst.Some?
    && (if o.data == Empty then o.key == oldFirst.value.key else o.key < oldFirst.value.key)
  }

  function BooksToCalculate(objs: seq<RawObject>, c: CacheState, parent: nat): set<Key> {
    set o | o in objs && ChangesFirstDir(o, c, parent) :: BookBase(o.key)
  }

  function BookRows(bases: set<Key>, c: CacheState, ledger: nat): Table<Key, Key> {
    map p | p in (set k | k in bases :: (k, ledger)) :: CachedNext(c, p.0, ledger)
  }

  // The successor table after the ledger is built.
  function SuccessorAfter(
    table: Table<Key, Key>, before: CacheState, after: CacheState, raw: RawLedger): Table<Key, Key>
    requires raw.number > 0
  {
    if raw.neighborsIncluded then
      Insert(table, raw.number, BookEdges(raw.books) + NeighborEdges(raw.objects))
    else
      Insert(table, raw.number, CacheEdges(Updates(raw.objects), Modified(raw.objects), after, raw.number))
      + BookRows(BooksToCalculate(raw.objects, before, raw.number - 1), after, raw.number)
  }

  predicate NeedsCache(objs: seq<RawObject>) {
    exists o :: o in objs && o.mod != MODIFIED
  }

  // Without neighbours the cache must be full and exactly one ledger behind.
  predicate CanBuild(before: CacheState, raw: RawLedger) {
    raw.neighborsIncluded
    || (before.full
        && Updated(before, Updates(raw.objects), raw.number, false).latest == raw.number
        && (NeedsCache(raw.objects) ==> before.latest + 1 == raw.number))
  }

  // Whether a build gets as far as the cache, even if it fails afterwards.
  predicate Applies(before: CacheState, raw: RawLedger) {
    raw.neighborsIncluded || !NeedsCache(raw.objects) || (before.full && before.latest + 1 == raw.number)
  }

  // What the builder asserts of the cache it is given.
  predicate CacheKnows(c: CacheState, raw: RawLedger)
    requires raw.number > 0
  {
    forall o | o in raw.objects && o.mod != MODIFIED ::
      && (o.data == Empty ==> Cached(c, o.key, raw.number - 1).Some?)
      && (IsBookDir(if o.data == Empty then Cached(c, o.key, raw.number - 1).value else o.data) ==>
            CachedSuccessor(c, BookBase(o.key), raw.number - 1).Some?)
  }

  // The rows of every other ledger.
  ghost function Others<V>(table: Table<Key, V>, ledger: nat): Table<Key, V> {
    map p | p in table && p.1 != ledger :: table[p]
  }

  /* One step of each loop, on values */

  function WithEdges(table: Table<Key, Key>, ledger: nat, edges: seq<Edge>): Table<Key, Key>
    requires |edges| <= 2
  {
    if |edges| == 0 then table
    else if |edges| == 1 then table[(edges[0].key, ledger) := edges[0].value]
    else table[(edges[0].key, ledger) := edges[0].value][(edges[1].key, ledger) := edges[1].value]
  }

  lemma InsertOne<V>(table: Table<Key, V>, ledger: nat, rows: seq<Row<Key, V>>, row: Row<Key, V>)
    ensures Insert(table, ledger, rows + [row]) == Insert(table, ledger, rows)[(row.key, ledger) := row.value]
  {
    assert (rows + [row])[..|rows|] == rows;
  }

  lemma InsertEdges(table: Table<Key, Key>, ledger: nat, rows: seq<Edge>, edges: seq<Edge>)
    requires |edges| <= 2
    ensures Insert(table, ledger, rows + edges) == WithEdges(Insert(table, ledger, rows), ledger, edges)
  {
    if |edges| == 0 {
      assert rows + edges == rows;
    } else if |edges| == 1 {
      InsertOne(table, ledger, rows, edges[0]);
      assert rows + edges == rows + [edges[0]];
    } else {
      InsertOne(table, ledger, rows, edges[0]);
      InsertOne(table, ledger, rows + [edges[0]], edges[1]);
      assert rows + edges == rows + [edges[0]] + [edges[1]];
    }
  }

  lemma BookStep(table: Table<Key, Key>, ledger: nat, books: seq<BookSuccessor>, i: nat)
    requires i < |books|
    ensures Insert(table, ledger, BookEdges(books[..i + 1])) ==
      Insert(table, ledger, BookEdges(books[..i]))[(books[i].base, ledger) := KeyOr(books[i].first, LAST_KEY)]
  {
    InsertOne(table, ledger, BookEdges(books[..i]), Row(books[i].base, KeyOr(books[i].first, LAST_KEY)));
    assert BookEdges(books[..i + 1]) == BookEdges(books[..i]) + [Row(books[i].base, KeyOr(books[i].first, LAST_KEY))];
  }

  lemma NeighborStep(table: Table<Key, Key>, ledger: nat, first: seq<Edge>, objs: seq<RawObject>, i: nat)
    requires i < |objs|
    ensures Insert(table, ledger, first + NeighborEdges(objs[..i + 1])) ==
      WithEdges(Insert(table, ledger, first + NeighborEdges(objs[..i])), ledger, NeighborEdgesOf(objs[i]))
  {
    assert objs[..i + 1][..i] == objs[..i];
    InsertEdges(table, ledger, first + NeighborEdges(objs[..i]), NeighborEdgesOf(objs[i]));
    assert first + NeighborEdges(objs[..i + 1]) == first + NeighborEdges(objs[..i]) + NeighborEdgesOf(objs[i]);
  }

  lemma CacheEdgeStep(
    table: Table<Key, Key>, ledger: nat, objs: seq<LedgerObject>, i: nat, modified: set<Key>, c: CacheState)
    requires i < |objs|
    ensures Insert(table, ledger, CacheEdges(objs[..i + 1], modified, c, ledger)) ==
      WithEdges(Insert(table, ledger, CacheEdges(objs[..i], modified, c, ledger)), ledger,
                if objs[i].key in modified then [] else CacheEdgesOf(objs[i], c, ledger))
  {
    assert objs[..i + 1][..i] == objs[..i];
    InsertEdges(table, ledger, CacheEdges(objs[..i], modified, c, ledger),
                if objs[i].key in modified then [] else CacheEdgesOf(objs[i], c, ledger));
  }

  lemma ObjectStep(table: Table<Key, Blob>, ledger: nat, objs: seq<RawObject>, i: nat, c: CacheState)
    requires i < |objs| && ledger > 0
    ensures Updates(objs[..i + 1]) == Updates(objs[..i]) + [LedgerObject(objs[i].key, objs[i].data)]
    ensures Modified(objs[..i + 1]) == Modified(objs[..i]) + if objs[i].mod == MODIFIED then {objs[i].key} else {}
    ensures BooksToCalculate(objs[..i + 1], c, ledger - 1) == BooksToCalculate(objs[..i], c, ledger - 1)
      + if ChangesFirstDir(objs[i], c, ledger - 1) then {BookBase(objs[i].key)} else {}
    ensures NeedsCache(objs[..i + 1]) <==> NeedsCache(objs[..i]) || objs[i].mod != MODIFIED
    ensures Insert(table, ledger, ObjectRows(objs[..i + 1])) ==
      Insert(table, ledger, ObjectRows(objs[..i]))[(objs[i].key, ledger) := objs[i].data]
  {
    var o := objs[i];
    assert objs[..i + 1] == objs[..i] + [o];
    assert o in objs[..i + 1];
    assert forall q :: q in objs[..i + 1] <==> q in objs[..i] || q == o;
    InsertOne(table, ledger, ObjectRows(objs[..i]), Row(o.key, o.data));
    assert ObjectRows(objs[..i + 1]) == ObjectRows(objs[..i]) + [Row(o.key, o.data)];
  }

  lemma BookRowsStep(table: Table<Key, Key>, done: set<Key>, base: Key, c: CacheState, ledger: nat)
    ensures table + BookRows(done + {base}, c, ledger) ==
      (table + BookRows(done, c, ledger))[(base, ledger) := CachedNext(c, base, ledger)]
  {
  }

  lemma {:induction false} InsertOnly<V>(table: Table<Key, V>, ledger: nat, rows: seq<Row<Key, V>>)
    ensures Others(Insert(table, ledger, rows), ledger) == Others(table, ledger)
  {
    if rows != [] {
      InsertOnly(table, ledger, rows[..|rows| - 1]);
    }
  }

  lemma SuccessorOnly(table: Table<Key, Key>, before: CacheState, after: CacheState, raw: RawLedger)
    requires raw.number > 0
    ensures Others(SuccessorAfter(table, before, after, raw), raw.number) == Others(table, raw.number)
  {
    InsertOnly(table, raw.number, BookEdges(raw.books) + NeighborEdges(raw.objects));
    InsertOnly(table, raw.number, CacheEdges(Updates(raw.objects), Modified(raw.objects), after, raw.number));
  }

  lemma UpdatedRest(c: CacheState, objs: seq<LedgerObject>, ledger: nat)
    ensures var d := Updated(c, objs, ledger, false);
      d.full == c.full && d.disabled == c.disabled
      && (!c.disabled ==> d.latest == if ledger > c.latest then ledger else c.latest)
      && (c.disabled ==> d == c)
  {
    StoreAllRest(c.(latest := if ledger > c.latest then ledger else c.latest), objs, ledger, false);
  }

  // With neighbours a build always succeeds. Without, it needs a full cache that is not ahead of the
  // ledger and takes updates, and, when an object comes or goes, is just one ledger behind.
  lemma BuildsIff(before: CacheState, raw: RawLedger)
    ensures CanBuild(before, raw) <==> (
      || raw.neighborsIncluded
      || (&& before.full && before.latest <= raw.number
          && (before.disabled ==> before.latest == raw.number)
          && ((exists o :: o in raw.objects && o.mod != MODIFIED) ==> before.latest + 1 == raw.number)))
    // Whatever can be built is applied to the cache; a failed build leaves it alone only when some
    // object comes or goes and the cache is stale.
    ensures CanBuild(before, raw) ==> Applies(before, raw)
    ensures !Applies(before, raw) <==> (
      && !raw.neighborsIncluded
      && (exists o :: o in raw.objects && o.mod != MODIFIED)
      && !(before.full && before.latest + 1 == raw.number))
  {
    UpdatedRest(before, Updates(raw.objects), raw.number);
  }

  /* The methods */

  class Builder {
    const backend: Backend

    constructor (b: Backend)
      ensures backend == b
    {
      backend := b;
    }

    method WriteSuccessor(key: Key, ledger: nat, next: Key)
      modifies backend
      ensures backend.successor == old(backend.successor)[(key, ledger) := next]
      ensures backend.objects == old(backend.objects) && backend.range == old(backend.range)
    {
      backend.successor := backend.successor[(key, ledger) := next];
    }

    // The records that tie an object to the neighbours sent along with it.
    method WriteNeighborsOf(o: RawObject, ledger: nat)
      modifies backend
      ensures backend.successor == WithEdges(old(backend.successor), ledger, NeighborEdgesOf(o))
      ensures backend.objects == old(backend.objects) && backend.range == old(backend.range)
    {
      if o.mod != MODIFIED {
        var p, s := KeyOr(o.predecessor, FIRST_KEY), KeyOr(o.successor, LAST_KEY);
        if o.mod == DELETED {
          WriteSuccessor(p, ledger, s);
        } else {
          WriteSuccessor(p, ledger, o.key);
          WriteSuccessor(o.key, ledger, s);
        }
      }
    }

    // Successor records sent along with the ledger.
    method WriteNeighbors(raw: RawLedger)
      modifies backend
      ensures backend.successor ==
        Insert(old(backend.successor), raw.number, BookEdges(raw.books) + NeighborEdges(raw.objects))
      ensures backend.objects == old(backend.objects) && backend.range == old(backend.range)
    {
      ghost var table := backend.successor;
      for i := 0 to |raw.books|
        invariant backend.successor == Insert(table, raw.number, BookEdges(raw.books[..i]))
        invariant backend.objects == old(backend.objects) && backend.range == old(backend.range)
      {
        BookStep(table, raw.number, raw.books, i);
        WriteSuccessor(raw.books[i].base, raw.number, KeyOr(raw.books[i].first, LAST_KEY));
      }
      ghost var books := BookEdges(raw.books);
      assert raw.books[..|raw.books|] == raw.books;
      assert books + [] == books;
      for i := 0 to |raw.objects|
        invariant backend.successor == Insert(table, raw.number, books + NeighborEdges(raw.objects[..i]))
        invariant backend.objects == old(backend.objects) && backend.range == old(backend.range)
      {
        NeighborStep(table, raw.number, books, raw.objects, i);
        WriteNeighborsOf(raw.objects[i], raw.number);
      }
      assert raw.objects[..|raw.objects|] == raw.objects;
    }

    // Writes every object, and notes which were modified and which books need a new record.
    method WriteObjects(raw: RawLedger)
      returns (ok: bool, updates: seq<LedgerObject>, books: set<Key>, modified: set<Key>)
      requires raw.number > 0
      requires raw.neighborsIncluded || CacheKnows(backend.cache.State(), raw)
      modifies backend
      ensures backend.successor == old(backend.successor) && backend.range == old(backend.range)
      ensures ok <==> (raw.neighborsIncluded || !NeedsCache(raw.objects)
                       || (backend.cache.full && backend.cache.latest == raw.number - 1))
      ensures ok ==> backend.objects == Insert(old(backend.objects), raw.number, ObjectRows(raw.objects))
      ensures ok ==> updates == Updates(raw.objects) && modified == Modified(raw.objects)
      ensures ok && !raw.neighborsIncluded ==>
        books == BooksToCalculate(raw.objects, backend.cache.State(), raw.number - 1)
      ensures Others(backend.objects, raw.number) == Others(old(backend.objects), raw.number)
    {
      ok, updates, books, modified := true, [], {}, {};
      ghost var c, table := backend.cache.State(), backend.objects;
      for i := 0 to |raw.objects|
        invariant ok && updates == Updates(raw.objects[..i]) && modified == Modified(raw.objects[..i])
        invariant !raw.neighborsIncluded ==> books == BooksToCalculate(raw.objects[..i], c, raw.number - 1)
        invariant backend.objects == Insert(table, raw.number, ObjectRows(raw.objects[..i]))
        invariant backend.successor == old(backend.successor) && backend.range == old(backend.range)
        invariant raw.neighborsIncluded || !NeedsCache(raw.objects[..i]) || (c.full && c.latest == raw.number - 1)
      {
        var o := raw.objects[i];
        ObjectStep(table, raw.number, raw.objects, i, c);
        updates := updates + [LedgerObject(o.key, o.data)];
        if o.mod != MODIFIED && !raw.neighborsIncluded {
          if !backend.cache.full || backend.cache.latest != raw.number - 1 {
            ok := false;
            InsertOnly(table, raw.number, ObjectRows(raw.objects[..i]));
            return;
          }
          var stale := CheckBook(o, raw.number - 1, raw);
          if stale {
            books := books + {BookBase(o.key)};
          }
        }
        if o.mod == MODIFIED {
          modified := modified + {o.key};
        }
        backend.objects := backend.objects[(o.key, raw.number) := o.data];
      }
      assert raw.objects[..|raw.objects|] == raw.objects;
      InsertOnly(table, raw.number, ObjectRows(raw.objects));
    }

    // Whether the object's book needs a new first directory.
    method CheckBook(o: RawObject, parent: nat, ghost raw: RawLedger) returns (stale: bool)
      requires o in raw.objects && o.mod != MODIFIED && raw.number == parent + 1
      requires CacheKnows(backend.cache.State(), raw)
      ensures stale <==> ChangesFirstDir(o, backend.cache.State(), parent)
    {
      var checkBookBase := IsBookDir(o.data);
      if o.data == Empty {
        var was := backend.cache.Get(o.key, parent);
        checkBookBase := IsBookDir(was.value);
      }
      if !checkBookBase {
        return false;
      }
      var oldFirst := backend.cache.GetSuccessor(BookBase(o.key), parent);
      stale := (o.data == Empty && o.key == oldFirst.value.key) || (o.data != Empty && o.key < oldFirst.value.key);
    }

    // Successor records computed from the neighbours in the updated cache.
    method WriteCacheEdges(updates: seq<LedgerObject>, modified: set<Key>, ledger: nat)
      modifies backend
      ensures backend.successor ==
        Insert(old(backend.successor), ledger, CacheEdges(updates, modified, backend.cache.State(), ledger))
      ensures backend.objects == old(backend.objects) && backend.range == old(backend.range)
    {
      ghost var c, table := backend.cache.State(), backend.successor;
      for i := 0 to |updates|
        invariant backend.successor == Insert(table, ledger, CacheEdges(updates[..i], modified, c, ledger))
        invariant backend.objects == old(backend.objects) && backend.range == old(backend.range)
      {
        var o := updates[i];
        CacheEdgeStep(table, ledger, updates, i, modified, c);
        if o.key in modified {
          continue;
        }
        var lb := backend.cache.GetPredecessor(o.key, ledger);
        var ub := backend.cache.GetSuccessor(o.key, ledger);
        var p := if lb.Some? then lb.value.key else FIRST_KEY;
        var s := if ub.Some? then ub.value.key else LAST_KEY;
        if o.blob == Empty {
          WriteSuccessor(p, ledger, s);
        } else {
          WriteSuccessor(p, ledger, o.key);
          WriteSuccessor(o.key, ledger, s);
        }
      }
      assert updates[..|updates|] == updates;
    }

    // The books may be visited in any order.
    method WriteBooks(bases: set<Key>, ledger: nat)
      modifies backend
      ensures backend.successor == old(backend.successor) + BookRows(bases, backend.cache.State(), ledger)
      ensures backend.objects == old(backend.objects) && backend.range == old(backend.range)
    {
      var todo := bases;
      ghost var c, table := backend.cache.State(), backend.successor;
      ghost var done := {};
      while todo != {}
        invariant done + todo == bases
        invariant backend.successor == table + BookRows(done, c, ledger)
        invariant backend.objects == old(backend.objects) && backend.range == old(backend.range)
      {
        var base :| base in todo;
        var succ := backend.cache.GetSuccessor(base, ledger);
        WriteSuccessor(base, ledger, if succ.Some? then succ.value.key else LAST_KEY);
        BookRowsStep(table, done, base, c, ledger);
        done, todo := done + {base}, todo - {base};
      }
      assert done == bases;
    }

    // Everything but the final commit. A failed build has touched no other ledger's rows.
    method BuildNextLedger(raw: RawLedger) returns (ok: bool)
      requires raw.number > 0
      requires raw.neighborsIncluded || CacheKnows(backend.cache.State(), raw)
      requires !backend.cache.disabled && raw.number > backend.cache.latest ==>
        raw.number == backend.cache.latest + 1 || backend.cache.latest == 0
      modifies backend, backend.cache
      ensures backend.range == old(backend.range)
      ensures ok <==> CanBuild(old(backend.cache.State()), raw)
      ensures ok <==> (
        || raw.neighborsIncluded
        || (&& old(backend.cache.full) && old(backend.cache.latest) <= raw.number
            && (old(backend.cache.disabled) ==> old(backend.cache.latest) == raw.number)
            && ((exists o :: o in raw.objects && o.mod != MODIFIED) ==> old(backend.cache.latest) + 1 == raw.number)))
      ensures backend.cache.State() ==
        if Applies(old(backend.cache.State()), raw)
        then Updated(old(backend.cache.State()), Updates(raw.objects), raw.number, false)
        else old(backend.cache.State())
      ensures ok ==> backend.objects == Insert(old(backend.objects), raw.number, ObjectRows(raw.objects))
      ensures ok ==>
        backend.successor == SuccessorAfter(old(backend.successor), old(backend.cache.State()), backend.cache.State(), raw)
      ensures Others(backend.objects, raw.number) == Others(old(backend.objects), raw.number)
      ensures Others(backend.successor, raw.number) == Others(old(backend.successor), raw.number)
    {
      ghost var table, before := backend.successor, backend.cache.State();
      BuildsIff(before, raw);
      if raw.neighborsIncluded {
        WriteNeighbors(raw);
      }
      UpdatedRest(before, Updates(raw.objects), raw.number);
      SuccessorOnly(table, before, Updated(before, Updates(raw.objects), raw.number, false), raw);
      var updates, books, modified;
      ok, updates, books, modified := WriteObjects(raw);
      if !ok {
        return;
      }
      backend.cache.Update(updates, raw.number, false);
      if !raw.neighborsIncluded {
        if !backend.cache.full || backend.cache.latest != raw.number {
          ok := false;
          return;
        }
        WriteCacheEdges(updates, modified, raw.number);
        WriteBooks(books, raw.number);
      }
    }
  }
}
