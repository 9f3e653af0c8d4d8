// One page of a ledger's live objects in key order, and what repeated paging yields.
module Pages {
  import opened Wrappers
  import opened Ledger

  datatype LedgerPage = LedgerPage(objects: seq<LedgerObject>, cursor: Option<Key>)

  function ObjectsAt(state: State, keys: seq<Key>): seq<LedgerObject> {
    seq(|keys|, i requires 0 <= i < |keys| => LedgerObject(keys[i], Lookup(state, keys[i])))
  }

  // Objects that exist, in order.
  function Present(objs: seq<LedgerObject>): seq<LedgerObject> {
    if objs == [] then []
    else Present(objs[..|objs| - 1]) + if objs[|objs| - 1].blob == Empty then [] else [objs[|objs| - 1]]
  }

  // They are exactly the objects with data, in the order they had.
  lemma {:induction false} PresentIs(state: State, keys: seq<Key>)
    requires Ascending(keys)
    ensures var objs := Present(ObjectsAt(state, keys));
      && (forall o :: o in objs <==> o.key in keys && o.blob == Lookup(state, o.key) && o.blob != Empty)
      && (forall i, j | 0 <= i < j < |objs| :: objs[i].key < objs[j].key)
  {
    if keys != [] {
      var front, last := keys[..|keys| - 1], keys[|keys| - 1];
      PresentIs(state, front);
      assert ObjectsAt(state, keys)[..|keys| - 1] == ObjectsAt(state, front);
      assert keys == front + [last];
      var before := Present(ObjectsAt(state, front));
      forall i | 0 <= i < |before| ensures before[i].key < last {
        assert before[i] in before;
      }
    }
  }

  lemma {:induction false} PresentAll(objs: seq<LedgerObject>)
    requires forall o | o in objs :: o.blob != Empty
    ensures Present(objs) == objs
  {
    if objs != [] {
      PresentAll(objs[..|objs| - 1]);
    }
  }

  lemma {:induction false} PresentConcat(a: seq<LedgerObject>, b: seq<LedgerObject>)
    ensures Present(a + b) == Present(a) + Present(b)
  {
    if b == [] {
      assert a + b == a;
    } else {
      assert (a + b)[..|a + b| - 1] == a + b[..|b| - 1];
      PresentConcat(a, b[..|b| - 1]);
    }
  }

  function NextKey(keys: set<Key>, key: Key): Option<Key> {
    if Next(keys, key) == LAST_KEY then None else Some(Next(keys, key))
  }

  // The enumeration goes from each key to its successor and stops where there is none.
  lemma NextInList(keys: set<Key>, start: Key, n: nat)
    requires LAST_KEY !in keys
    requires n <= |KeysAfter(keys, start)|
    ensures var after := KeysAfter(keys, start);
      NextKey(keys, if n == 0 then start else after[n - 1]) == if n < |after| then Some(after[n]) else None
    ensures n > 0 ==> KeysAfter(keys, start)[n - 1] in keys
  {
    KeysAfterIsSorted(keys, start);
    var after := KeysAfter(keys, start);
    if n > 0 {
      KeysAfterTail(keys, start, n - 1);
      assert after[n - 1] in after;
      assert after[n..] == KeysAfter(keys, after[n - 1]);
    }
  }

  // At most `limit` keys after `cursor`, in order.
  function PageKeys(keys: set<Key>, cursor: Key, limit: nat): seq<Key>
    requires LAST_KEY !in keys
  {
    var after := KeysAfter(keys, cursor);
    if |after| < limit then after else after[..limit]
  }

  // Where to go on from, when the page is full.
  function PageCursor(keys: set<Key>, cursor: Key, limit: nat): Option<Key>
    requires LAST_KEY !in keys
  {
    var after := KeysAfter(keys, cursor);
    if limit == 0 || |after| < limit then None else Some(after[limit - 1])
  }

  // The keys may come from another ledger than the objects.
  function PageOver(keys: set<Key>, state: State, cursor: Key, limit: nat): LedgerPage
    requires LAST_KEY !in keys
  {
    LedgerPage(Present(ObjectsAt(state, PageKeys(keys, cursor, limit))), PageCursor(keys, cursor, limit))
  }

  function PageOf(state: State, cursor: Key, limit: nat): LedgerPage
    requires LAST_KEY !in state
  {
    PageOver(state.Keys, state, cursor, limit)
  }

  lemma PageKeysCover(keys: set<Key>, cursor: Key, limit: nat)
    requires LAST_KEY !in keys && limit > 0
    ensures var listed, next := PageKeys(keys, cursor, limit), PageCursor(keys, cursor, limit);
      && Ascending(listed)
      && (forall k | k in listed :: k in keys && k > cursor)
      && (forall k | k in keys && k > cursor && (next.Some? ==> k <= next.value) :: k in listed)
      && (next.Some? ==> next.value in keys && next.value > cursor)
  {
    var after := KeysAfter(keys, cursor);
    KeysAfterIsSorted(keys, cursor);
    if |after| >= limit {
      assert after[limit - 1] in after;
      forall k | k in keys && k > cursor && k <= after[limit - 1] ensures k in after[..limit] {
        var i :| 0 <= i < |after| && after[i] == k;
        assert after[..limit][i] == k;
      }
      forall k | k in after[..limit] ensures k in after {
        var i :| 0 <= i < limit && after[..limit][i] == k;
        assert after[i] == k;
      }
    }
  }

  lemma LiveObjects(state: State, listed: seq<Key>)
    requires Proper(state)
    requires forall k | k in listed :: k in state
    ensures Present(ObjectsAt(state, listed)) == ObjectsAt(state, listed)
  {
    var objs := ObjectsAt(state, listed);
    forall o | o in objs ensures o.blob != Empty {
      var i :| 0 <= i < |objs| && objs[i] == o;
      assert listed[i] in listed;
    }
    PresentAll(objs);
  }

  // A page holds every live key up to its cursor, or every live key there is.
  lemma PageCovers(state: State, cursor: Key, limit: nat)
    requires Proper(state) && limit > 0
    ensures var page := PageOf(state, cursor, limit);
      && Distinct(page.objects)
      && (forall o | o in page.objects :: o.key in state && o.key > cursor && o.blob == state[o.key])
      && (forall k | k in state && k > cursor && (page.cursor.Some? ==> k <= page.cursor.value) ::
            Touches(page.objects, k))
      && (page.cursor.Some? ==> page.cursor.value in state && page.cursor.value > cursor)
      // A full page, even if it is the last one, has a cursor, its last key; a shorter one has none.
      && |page.objects| <= limit && (page.cursor.Some? <==> |page.objects| == limit)
      && (page.cursor.Some? ==> page.cursor.value == page.objects[limit - 1].key)
  {
    var listed := PageKeys(state.Keys, cursor, limit);
    PageKeysCover(state.Keys, cursor, limit);
    LiveObjects(state, listed);
    ListedKeys(state, listed);
  }

  lemma ListedKeys(state: State, listed: seq<Key>)
    requires Ascending(listed)
    ensures Distinct(ObjectsAt(state, listed))
    ensures forall o | o in ObjectsAt(state, listed) :: o.key in listed && o.blob == Lookup(state, o.key)
    ensures forall k | k in listed :: Touches(ObjectsAt(state, listed), k)
  {
    var objs := ObjectsAt(state, listed);
    forall o | o in objs ensures o.key in listed && o.blob == Lookup(state, o.key) {
      var i :| 0 <= i < |objs| && objs[i] == o;
    }
    forall k | k in listed ensures Touches(objs, k) {
      var i :| 0 <= i < |listed| && listed[i] == k;
      assert objs[i] in objs;
    }
  }

  // Every object reached by following cursors from `cursor`.
  function AllPages(keys: set<Key>, state: State, cursor: Key, limit: nat): seq<LedgerObject>
    requires LAST_KEY !in keys && limit > 0
    decreases Above(keys, cursor)
  {
    var page := PageOver(keys, state, cursor, limit);
    if page.cursor.None? then
      page.objects
    else
      CursorAdvances(keys, cursor, limit);
      page.objects + AllPages(keys, state, page.cursor.value, limit)
  }

  lemma CursorAdvances(keys: set<Key>, cursor: Key, limit: nat)
    requires LAST_KEY !in keys && limit > 0
    ensures var next := PageCursor(keys, cursor, limit);
      next.Some? ==> Above(keys, next.value) < Above(keys, cursor)
  {
    PageKeysCover(keys, cursor, limit);
    var next := PageCursor(keys, cursor, limit);
    if next.Some? {
      assert next.value in Above(keys, cursor) && next.value !in Above(keys, next.value);
    }
  }

  function AllKeys(keys: set<Key>, cursor: Key, limit: nat): seq<Key>
    requires LAST_KEY !in keys && limit > 0
    decreases Above(keys, cursor)
  {
    var next := PageCursor(keys, cursor, limit);
    if next.None? then
      PageKeys(keys, cursor, limit)
    else
      CursorAdvances(keys, cursor, limit);
      PageKeys(keys, cursor, limit) + AllKeys(keys, next.value, limit)
  }

  lemma {:induction false} AllKeysAreListed(keys: set<Key>, cursor: Key, limit: nat)
    requires LAST_KEY !in keys && limit > 0
    ensures AllKeys(keys, cursor, limit) == KeysAfter(keys, cursor)
    decreases Above(keys, cursor)
  {
    var next := PageCursor(keys, cursor, limit);
    if next.Some? {
      CursorAdvances(keys, cursor, limit);
      AllKeysAreListed(keys, next.value, limit);
      KeysAfterTail(keys, cursor, limit - 1);
    }
  }

  lemma {:induction false} AllPagesHoldAllKeys(keys: set<Key>, state: State, cursor: Key, limit: nat)
    requires LAST_KEY !in keys && limit > 0
    ensures AllPages(keys, state, cursor, limit) == Present(ObjectsAt(state, AllKeys(keys, cursor, limit)))
    decreases Above(keys, cursor)
  {
    var next := PageCursor(keys, cursor, limit);
    if next.Some? {
      CursorAdvances(keys, cursor, limit);
      AllPagesHoldAllKeys(keys, state, next.value, limit);
      var here, rest := PageKeys(keys, cursor, limit), AllKeys(keys, next.value, limit);
      PresentConcat(ObjectsAt(state, here), ObjectsAt(state, rest));
      ConcatObjects(state, here, rest);
    }
  }

  // Following cursors lists every key once, in ascending order, with the objects that exist.
  lemma PagingIsLossless(keys: set<Key>, state: State, cursor: Key, limit: nat)
    requires LAST_KEY !in keys && limit > 0
    ensures AllPages(keys, state, cursor, limit) == Present(ObjectsAt(state, KeysAfter(keys, cursor)))
  {
    AllPagesHoldAllKeys(keys, state, cursor, limit);
    AllKeysAreListed(keys, cursor, limit);
  }

  lemma ConcatObjects(state: State, a: seq<Key>, b: seq<Key>)
    ensures ObjectsAt(state, a + b) == ObjectsAt(state, a) + ObjectsAt(state, b)
  {
  }

  // In order: exactly the live objects, ascending.
  lemma InOrderPagingIsTheLedger(state: State, limit: nat)
    requires Proper(state) && limit > 0
    ensures var objs := AllPages(state.Keys, state, FIRST_KEY, limit);
      && (forall i, j | 0 <= i < j < |objs| :: objs[i].key < objs[j].key)
      && forall o :: o in objs <==> o.key in state && o.blob == state[o.key]
  {
    var keys := KeysAfter(state.Keys, FIRST_KEY);
    KeysAfterIsSorted(state.Keys, FIRST_KEY);
    PagingIsLossless(state.Keys, state, FIRST_KEY, limit);
    LiveObjects(state, keys);
    ListedObjects(state, keys);
  }

  // Out of order: the objects of the ledger whose keys the list still has, ascending.
  lemma OutOfOrderPagingIsWhatIsListed(keys: set<Key>, state: State, limit: nat)
    requires LAST_KEY !in keys && limit > 0
    ensures var objs := AllPages(keys, state, FIRST_KEY, limit);
      && (forall i, j | 0 <= i < j < |objs| :: objs[i].key < objs[j].key)
      && forall o :: o in objs <==>
           o.key in keys && o.key != FIRST_KEY && o.key in state && o.blob == state[o.key] && o.blob != Empty
  {
    KeysAfterIsSorted(keys, FIRST_KEY);
    PagingIsLossless(keys, state, FIRST_KEY, limit);
    PresentIs(state, KeysAfter(keys, FIRST_KEY));
  }

  lemma ListedObjects(state: State, keys: seq<Key>)
    requires forall k :: k in keys <==> k in state
    ensures forall o :: o in ObjectsAt(state, keys) <==> o.key in state && o.blob == state[o.key]
  {
    var objs := ObjectsAt(state, keys);
    forall o: LedgerObject ensures o in objs <==> o.key in state && o.blob == state[o.key] {
      if o.key in state && o.blob == state[o.key] {
        var i :| 0 <= i < |keys| && keys[i] == o.key;
        assert objs[i] == o;
      }
      if o in objs {
        var i :| 0 <= i < |objs| && objs[i] == o;
        assert keys[i] in keys;
      }
    }
  }
}
