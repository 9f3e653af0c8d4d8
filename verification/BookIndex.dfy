// The records kept for order books: from each book's base to its best directory.
module BookIndex {
  import opened Wrappers
  import opened Tables
  import opened Ledger
  import opened SimpleCaches
  import opened Backends
  import opened BuildLedger
  import opened BookOffers
  import opened Successors

  predicate IsBase(book: Key) {
    book % QUALITY_SPAN == 0 && book + QUALITY_SPAN <= LAST_KEY
  }

  // Only directories of the book have keys in its range.
  ghost predicate PureBook(state: State, book: Key) {
    forall k | k in state && book < k < book + QUALITY_SPAN :: IsBookDir(state[k])
  }

  lemma BaseOfKey(book: Key, key: Key)
    requires IsBase(book) && book < key < book + QUALITY_SPAN
    ensures BookBase(key) == book
  {
  }

  // The book's best directory, or LAST_KEY when it has none.
  function FirstDirectory(keys: set<Key>, book: Key): Key
    requires IsBase(book)
  {
    if Next(keys, book) < book + QUALITY_SPAN then Next(keys, book) else LAST_KEY
  }

  // An object whose coming or going touches the first place of a full cache marks its book.
  lemma ChangeIsNoticed(raw: RawLedger, state: State, c: CacheState, book: Key, o: RawObject)
    requires raw.number > 0 && Proper(state) && Mirrors(c, state, raw.number - 1) && CacheKnows(c, raw)
    requires IsBase(book) && book < o.key < book + QUALITY_SPAN
    requires o in raw.objects && o.mod != MODIFIED && (o.data == Empty <==> o.key in state)
    requires IsBookDir(if o.data == Empty then state[o.key] else o.data)
    requires o.key <= Next(state.Keys, book)
    ensures ChangesFirstDir(o, c, raw.number - 1)
  {
    BaseOfKey(book, o.key);
    MirrorNeighbours(c, state, raw.number - 1, o.key);
    MirrorNeighbours(c, state, raw.number - 1, book);
  }

  // A directory of the book that comes or goes at or before its first place is noticed.
  lemma FirstChangeNoticed(raw: RawLedger, state: State, c: CacheState, book: Key, key: Key)
    requires raw.number > 0 && HonestDiff(raw, state) && Proper(state) && Mirrors(c, state, raw.number - 1)
    requires CacheKnows(c, raw)
    requires IsBase(book) && book < key < book + QUALITY_SPAN
    requires PureBook(state, book) && PureBook(Apply(state, Updates(raw.objects)), book)
    requires key in state <==> key !in Apply(state, Updates(raw.objects))
    requires key <= Next(state.Keys, book)
    ensures book in BooksToCalculate(raw.objects, c, raw.number - 1)
  {
    var o := ChangedObject(raw, state, key);
    var r := RawOf(raw, o);
    assert r.mod != MODIFIED;
    ApplyTouched(state, Updates(raw.objects), o);
    ChangeIsNoticed(raw, state, c, book, r);
    BaseOfKey(book, key);
  }

  lemma RawOf(raw: RawLedger, o: LedgerObject) returns (r: RawObject)
    requires o in Updates(raw.objects)
    ensures r in raw.objects && r.key == o.key && r.data == o.blob
  {
    var i :| 0 <= i < |raw.objects| && Updates(raw.objects)[i] == o;
    r := raw.objects[i];
  }

  // Unless the book is noticed, its first directory, or its emptiness, has not changed.
  lemma FirstUnchanged(raw: RawLedger, state: State, c: CacheState, book: Key)
    requires raw.number > 0 && HonestDiff(raw, state) && Proper(state) && Mirrors(c, state, raw.number - 1)
    requires CacheKnows(c, raw)
    requires IsBase(book) && PureBook(state, book) && PureBook(Apply(state, Updates(raw.objects)), book)
    requires book !in BooksToCalculate(raw.objects, c, raw.number - 1)
    ensures FirstDirectory(Apply(state, Updates(raw.objects)).Keys, book) == FirstDirectory(state.Keys, book)
  {
    var state' := Apply(state, Updates(raw.objects));
    var a, b := Next(state.Keys, book), Next(state'.Keys, book);
    if a < book + QUALITY_SPAN && a !in state' {
      FirstChangeNoticed(raw, state, c, book, a);
    }
    if b < book + QUALITY_SPAN && b < a {
      FirstChangeNoticed(raw, state, c, book, b);
    }
  }

  // The first directory goes, or one comes before it.
  lemma FirstMoves(keys: set<Key>, keys': set<Key>, book: Key, key: Key)
    requires IsBase(book) && book < key < book + QUALITY_SPAN && book !in keys && book !in keys'
    requires (key == Next(keys, book) && key !in keys') || (key < Next(keys, book) && key in keys')
    ensures FirstDirectory(keys', book) != FirstDirectory(keys, book)
  {
  }

  // The cache says of an object that its book's first directory goes, or that it comes before it.
  lemma MarkIsTrue(o: RawObject, state: State, c: CacheState, ledger: nat, book: Key)
    requires Proper(state) && Mirrors(c, state, ledger) && IsBase(book)
    requires ChangesFirstDir(o, c, ledger) && BookBase(o.key) == book
    ensures if o.data == Empty then o.key == Next(state.Keys, book) else o.key < Next(state.Keys, book)
    ensures book <= o.key < book + QUALITY_SPAN
  {
    MirrorNeighbours(c, state, ledger, book);
    assert CachedSuccessor(c, book, ledger).value.key == Next(state.Keys, book);
  }

  // What marks a book is such a change.
  lemma NoticedChanges(raw: RawLedger, state: State, c: CacheState, book: Key)
    requires raw.number > 0 && HonestDiff(raw, state) && Proper(state) && Mirrors(c, state, raw.number - 1)
    requires IsBase(book) && book !in state && book !in Apply(state, Updates(raw.objects))
    requires book in BooksToCalculate(raw.objects, c, raw.number - 1)
    ensures FirstDirectory(Apply(state, Updates(raw.objects)).Keys, book) != FirstDirectory(state.Keys, book)
  {
    var state' := Apply(state, Updates(raw.objects));
    var o :| o in raw.objects && ChangesFirstDir(o, c, raw.number - 1) && BookBase(o.key) == book;
    var i :| 0 <= i < |raw.objects| && raw.objects[i] == o;
    ApplyTouched(state, Updates(raw.objects), Updates(raw.objects)[i]);
    MarkIsTrue(o, state, c, raw.number - 1, book);
    FirstMoves(state.Keys, state'.Keys, book, o.key);
  }

  // So exactly the books whose first directory changes are recalculated.
  lemma NoticedIffFirstChanges(raw: RawLedger, state: State, c: CacheState, book: Key)
    requires raw.number > 0 && HonestDiff(raw, state) && Proper(state) && Mirrors(c, state, raw.number - 1)
    requires CacheKnows(c, raw)
    requires IsBase(book) && PureBook(state, book) && PureBook(Apply(state, Updates(raw.objects)), book)
    requires book !in state && book !in Apply(state, Updates(raw.objects))
    ensures book in BooksToCalculate(raw.objects, c, raw.number - 1)
      <==> FirstDirectory(Apply(state, Updates(raw.objects)).Keys, book) != FirstDirectory(state.Keys, book)
  {
    if book in BooksToCalculate(raw.objects, c, raw.number - 1) {
      NoticedChanges(raw, state, c, book);
    } else {
      FirstUnchanged(raw, state, c, book);
    }
  }

  // The books sent along with a ledger are those whose first directory it changes.
  ghost predicate HonestBook(raw: RawLedger, keys: set<Key>, keys': set<Key>, book: Key)
    requires IsBase(book)
  {
    && (forall b | b in raw.books && b.base == book :: KeyOr(b.first, LAST_KEY) == FirstDirectory(keys', book))
    && (FirstDirectory(keys', book) != FirstDirectory(keys, book) ==> exists b :: b in raw.books && b.base == book)
  }

  // The build writes a record for the book.
  ghost predicate Noticed(raw: RawLedger, c: CacheState, book: Key) {
    if raw.neighborsIncluded then exists b :: b in raw.books && b.base == book
    else raw.number > 0 && book in BooksToCalculate(raw.objects, c, raw.number - 1)
  }

  ghost predicate RightRecord(value: Key, keys: set<Key>, book: Key) {
    BookIndexed(if value == LAST_KEY then None else Some(value), keys, book)
  }

  // One ledger's worth of records, as far as one book is concerned.
  ghost predicate BuildsBook(
    table: Table<Key, Key>, table': Table<Key, Key>, state: State, state': State, ledger: nat,
    raw: RawLedger, c: CacheState, book: Key)
  {
    && Builds(table, table', state, state', ledger, raw, c)
    && IsBase(book) && PureBook(state, book) && PureBook(state', book)
    && (if raw.neighborsIncluded then HonestBook(raw, state.Keys, state'.Keys, book) else CacheKnows(c, raw))
    && ((book, ledger) in table ==> RightRecord(table[(book, ledger)], state'.Keys, book))
  }

  // A record at the new ledger, if there is one, is right; a noticed book has one.
  ghost predicate RecordAt(table': Table<Key, Key>, keys: set<Key>, ledger: nat, book: Key, noticed: bool) {
    && ((book, ledger) in table' ==> RightRecord(table'[(book, ledger)], keys, book))
    && (noticed ==> (book, ledger) in table')
  }

  lemma CacheRecord(
    table: Table<Key, Key>, table': Table<Key, Key>, state: State, state': State, ledger: nat,
    raw: RawLedger, c: CacheState, book: Key)
    requires BuildsBook(table, table', state, state', ledger, raw, c, book) && !raw.neighborsIncluded
    ensures RecordAt(table', state'.Keys, ledger, book, Noticed(raw, c, book))
  {
    var objs, modified := Updates(raw.objects), Modified(raw.objects);
    var after := Updated(c, objs, ledger, false);
    ApplyProper(state, objs) by { DiffLiveness(raw, state); }
    MirrorStep(c, state, objs, ledger - 1);
    MirrorNeighbours(after, state', ledger, book);
    CacheEdgesAreLedgerEdges(objs, modified, after, state', ledger);
    var edges := CacheEdges(objs, modified, after, ledger);
    forall r | r in edges && r.key == book ensures RightRecord(r.value, state'.Keys, book) {
      LedgerEdgesTrue(raw, state, r);
    }
    InsertedRecord(table, ledger, edges, state'.Keys, book);
    var rows := BookRows(BooksToCalculate(raw.objects, c, ledger - 1), after, ledger);
    assert (book, ledger) in rows <==> book in BooksToCalculate(raw.objects, c, ledger - 1);
  }

  lemma NeighborRecord(
    table: Table<Key, Key>, table': Table<Key, Key>, state: State, state': State, ledger: nat,
    raw: RawLedger, c: CacheState, book: Key)
    requires BuildsBook(table, table', state, state', ledger, raw, c, book) && raw.neighborsIncluded
    ensures RecordAt(table', state'.Keys, ledger, book, Noticed(raw, c, book))
  {
    ModifiedExactly(raw, state);
    NeighborEdgesAreLedgerEdges(raw.objects, Modified(raw.objects), state'.Keys);
    var books, edges := BookEdges(raw.books), NeighborEdges(raw.objects);
    forall r: Edge | r in books + edges && r.key == book ensures RightRecord(r.value, state'.Keys, book) {
      if r in books {
        var i :| 0 <= i < |raw.books| && books[i] == r;
        assert raw.books[i] in raw.books;
      } else {
        LedgerEdgesTrue(raw, state, r);
      }
    }
    InsertedRecord(table, ledger, books + edges, state'.Keys, book);
    if b :| b in raw.books && b.base == book {
      var i :| 0 <= i < |raw.books| && raw.books[i] == b;
      assert books[i] in books + edges;
    }
  }

  lemma InsertedRecord(table: Table<Key, Key>, ledger: nat, rows: seq<Edge>, keys: set<Key>, book: Key)
    requires forall r | r in rows && r.key == book :: RightRecord(r.value, keys, book)
    requires (book, ledger) in table ==> RightRecord(table[(book, ledger)], keys, book)
    ensures RecordAt(Insert(table, ledger, rows), keys, ledger, book, HasEdge(rows, book))
  {
    InsertedValue(table, ledger, rows, book);
    if !HasEdge(rows, book) {
      InsertOther(table, ledger, rows, book, ledger);
    }
  }

  lemma RecordIs(
    table: Table<Key, Key>, table': Table<Key, Key>, state: State, state': State, ledger: nat,
    raw: RawLedger, c: CacheState, book: Key)
    requires BuildsBook(table, table', state, state', ledger, raw, c, book)
    ensures RecordAt(table', state'.Keys, ledger, book, Noticed(raw, c, book))
    ensures !Noticed(raw, c, book) ==> FirstDirectory(state'.Keys, book) == FirstDirectory(state.Keys, book)
  {
    if raw.neighborsIncluded {
      NeighborRecord(table, table', state, state', ledger, raw, c, book);
    } else {
      CacheRecord(table, table', state, state', ledger, raw, c, book);
      if !Noticed(raw, c, book) {
        FirstUnchanged(raw, state, c, book);
      }
    }
  }

  // By either branch, a book's record is right after a build if it was right before, or if the
  // build notices the book, whatever the record was before: its best directory if it has one,
  // and otherwise nothing before the book's end.
  lemma BuildKeepsBooks(
    table: Table<Key, Key>, table': Table<Key, Key>, state: State, state': State, ledger: nat,
    raw: RawLedger, c: CacheState, book: Key)
    requires BuildsBook(table, table', state, state', ledger, raw, c, book)
    requires BookIndexed(DbSuccessor(table, book, ledger - 1), state.Keys, book) || Noticed(raw, c, book)
    ensures BookIndexed(DbSuccessor(table', book, ledger), state'.Keys, book)
  {
    RecordIs(table, table', state, state', ledger, raw, c, book);
    SuccessorOnly(table, c, Updated(c, Updates(raw.objects), ledger, false), raw);
    UnwrittenLookup(table, table', ledger, book);
  }

  lemma UnwrittenLookup(table: Table<Key, Key>, table': Table<Key, Key>, ledger: nat, key: Key)
    requires ledger > 0 && Others(table', ledger) == Others(table, ledger)
    ensures DbSuccessor(table', key, ledger) ==
      if (key, ledger) !in table' then DbSuccessor(table, key, ledger - 1)
      else if table'[(key, ledger)] == LAST_KEY then None
      else Some(table'[(key, ledger)])
  {
    OtherLookups(table, table', ledger, key, ledger - 1);
  }

  lemma BuildKeepsOlderRecords(
    table: Table<Key, Key>, table': Table<Key, Key>, state: State, state': State, ledger: nat,
    raw: RawLedger, c: CacheState, book: Key, t: nat)
    requires BuildsBook(table, table', state, state', ledger, raw, c, book) && t < ledger
    ensures DbSuccessor(table', book, t) == DbSuccessor(table, book, t)
  {
    SuccessorOnly(table, c, Updated(c, Updates(raw.objects), ledger, false), raw);
    OtherLookups(table, table', ledger, book, t);
  }

  /* Over a run */

  // The i-th build makes ledger base + i + 1, from its own cache or from neighbours sent along.
  ghost predicate BuildsBookAt(
    tables: seq<Table<Key, Key>>, states: seq<State>, raws: seq<RawLedger>, caches: seq<CacheState>,
    base: nat, book: Key, i: nat)
    requires |tables| == |states| == |raws| + 1 == |caches| + 1 && i < |raws|
  {
    BuildsBook(tables[i], tables[i + 1], states[i], states[i + 1], base + i + 1, raws[i], caches[i], book)
  }

  ghost predicate BookRun(
    tables: seq<Table<Key, Key>>, states: seq<State>, raws: seq<RawLedger>, caches: seq<CacheState>,
    base: nat, book: Key)
  {
    && |tables| == |states| == |raws| + 1 == |caches| + 1
    && forall i: nat {:trigger BuildsBookAt(tables, states, raws, caches, base, book, i)} | i < |raws| ::
         BuildsBookAt(tables, states, raws, caches, base, book, i)
  }

  // The record is right at ledger base + m, or the build that made that ledger noticed the book.
  ghost predicate RightSince(
    tables: seq<Table<Key, Key>>, states: seq<State>, raws: seq<RawLedger>, caches: seq<CacheState>,
    base: nat, book: Key, m: nat)
    requires |tables| == |states| == |raws| + 1 == |caches| + 1 && m <= |raws|
  {
    || BookIndexed(DbSuccessor(tables[m], book, base + m), states[m].Keys, book)
    || (m > 0 && Noticed(raws[m - 1], caches[m - 1], book))
  }

  // From the first ledger whose record is right, or whose build noticed the book, its record is
  // right at every ledger since, and stays right when later ledgers are written.
  lemma {:induction false} BooksAtEveryLedger(
    tables: seq<Table<Key, Key>>, states: seq<State>, raws: seq<RawLedger>, caches: seq<CacheState>,
    base: nat, book: Key, m: nat, t: nat, n: nat)
    requires BookRun(tables, states, raws, caches, base, book) && m <= t <= n <= |raws|
    requires RightSince(tables, states, raws, caches, base, book, m)
    ensures BookIndexed(DbSuccessor(tables[n], book, base + t), states[t].Keys, book)
    decreases n
  {
    if m < n {
      BooksAtEveryLedger(tables, states, raws, caches, base, book, m, if t < n then t else n - 1, n - 1);
    }
    if n > 0 {
      BookStepKeeps(tables, states, raws, caches, base, book, n - 1, t);
    }
  }

  // One step of such a run: older records stay, and the new one is right.
  lemma BookStepKeeps(
    tables: seq<Table<Key, Key>>, states: seq<State>, raws: seq<RawLedger>, caches: seq<CacheState>,
    base: nat, book: Key, i: nat, t: nat)
    requires BookRun(tables, states, raws, caches, base, book) && i < |raws| && t <= i + 1
    ensures t <= i ==> DbSuccessor(tables[i + 1], book, base + t) == DbSuccessor(tables[i], book, base + t)
    ensures var before := BookIndexed(DbSuccessor(tables[i], book, base + i), states[i].Keys, book);
      before || Noticed(raws[i], caches[i], book) ==>
        BookIndexed(DbSuccessor(tables[i + 1], book, base + i + 1), states[i + 1].Keys, book)
  {
    assert BuildsBookAt(tables, states, raws, caches, base, book, i);
    if t <= i {
      BuildKeepsOlderAt(tables, states, raws, caches, base, book, i, t);
    }
    if BookIndexed(DbSuccessor(tables[i], book, base + i), states[i].Keys, book) || Noticed(raws[i], caches[i], book) {
      BuildRightsAt(tables, states, raws, caches, base, book, i);
    }
  }

  lemma BuildKeepsOlderAt(
    tables: seq<Table<Key, Key>>, states: seq<State>, raws: seq<RawLedger>, caches: seq<CacheState>,
    base: nat, book: Key, i: nat, t: nat)
    requires |tables| == |states| == |raws| + 1 == |caches| + 1 && t <= i < |raws|
    requires BuildsBookAt(tables, states, raws, caches, base, book, i)
    ensures DbSuccessor(tables[i + 1], book, base + t) == DbSuccessor(tables[i], book, base + t)
  {
    BuildKeepsOlderRecords(
      tables[i], tables[i + 1], states[i], states[i + 1], base + i + 1, raws[i], caches[i], book, base + t);
  }

  lemma BuildRightsAt(
    tables: seq<Table<Key, Key>>, states: seq<State>, raws: seq<RawLedger>, caches: seq<CacheState>,
    base: nat, book: Key, i: nat)
    requires |tables| == |states| == |raws| + 1 == |caches| + 1 && i < |raws|
    requires BuildsBookAt(tables, states, raws, caches, base, book, i)
    requires BookIndexed(DbSuccessor(tables[i], book, base + i), states[i].Keys, book) || Noticed(raws[i], caches[i], book)
    ensures BookIndexed(DbSuccessor(tables[i + 1], book, base + i + 1), states[i + 1].Keys, book)
  {
    BuildKeepsBooks(tables[i], tables[i + 1], states[i], states[i + 1], base + i + 1, raws[i], caches[i], book);
  }
}
