// Where the background cursors start: keys changed in recent ledgers and still live
// (src/etl/ReportingETL.cpp, loadCacheFromDb).
module CacheCursors {
  import opened Ledger

  // How long a blob is. Only the empty one has no bytes.
  type BlobSize = Blob -> nat

  ghost predicate Measures(size: BlobSize) {
    forall blob :: size(blob) == 0 <==> blob == Empty
  }

  // By key, and then by size, so that deletions come first.
  predicate Before(size: BlobSize, a: LedgerObject, b: LedgerObject) {
    a.key < b.key || (a.key == b.key && size(a.blob) < size(b.blob))
  }

  ghost predicate Sorted(size: BlobSize, diff: seq<LedgerObject>) {
    forall i, j | 0 <= i < j < |diff| :: !Before(size, diff[j], diff[i])
  }

  function InsertObject(size: BlobSize, o: LedgerObject, sorted: seq<LedgerObject>): seq<LedgerObject> {
    if sorted == [] || !Before(size, sorted[0], o) then [o] + sorted
    else [sorted[0]] + InsertObject(size, o, sorted[1..])
  }

  function SortDiff(size: BlobSize, diff: seq<LedgerObject>): seq<LedgerObject> {
    if diff == [] then [] else InsertObject(size, diff[0], SortDiff(size, diff[1..]))
  }

  lemma {:induction false} InsertObjectHolds(size: BlobSize, o: LedgerObject, sorted: seq<LedgerObject>)
    ensures multiset(InsertObject(size, o, sorted)) == multiset([o]) + multiset(sorted)
  {
    if sorted != [] && Before(size, sorted[0], o) {
      InsertObjectHolds(size, o, sorted[1..]);
      assert sorted == [sorted[0]] + sorted[1..];
    }
  }

  lemma {:induction false} InsertObjectSorts(size: BlobSize, o: LedgerObject, sorted: seq<LedgerObject>)
    requires Sorted(size, sorted)
    ensures Sorted(size, InsertObject(size, o, sorted))
    ensures multiset(InsertObject(size, o, sorted)) == multiset([o]) + multiset(sorted)
  {
    InsertObjectHolds(size, o, sorted);
    if sorted != [] && Before(size, sorted[0], o) {
      InsertObjectSorts(size, o, sorted[1..]);
      var rest := InsertObject(size, o, sorted[1..]);
      forall i | 0 <= i < |rest| ensures !Before(size, rest[i], sorted[0]) {
        assert rest[i] in multiset(rest);
        assert rest[i] == o || rest[i] in sorted[1..];
      }
    }
  }

  lemma {:induction false} SortDiffSorts(size: BlobSize, diff: seq<LedgerObject>)
    ensures Sorted(size, SortDiff(size, diff))
    ensures multiset(SortDiff(size, diff)) == multiset(diff)
  {
    if diff != [] {
      SortDiffSorts(size, diff[1..]);
      InsertObjectSorts(size, diff[0], SortDiff(size, diff[1..]));
      assert diff == [diff[0]] + diff[1..];
    }
  }

  // A key becomes a cursor when some recent ledger wrote it and none deleted it.
  ghost predicate WrittenNotDeleted(diff: seq<LedgerObject>, key: Key) {
    && Touches(diff, key)
    && forall o | o in diff && o.key == key :: o.blob != Empty
  }

  // Those keys, in order.
  ghost predicate Picked(cursors: seq<Key>, diff: seq<LedgerObject>) {
    && Ascending(cursors)
    && forall k :: k in cursors <==> WrittenNotDeleted(diff, k)
  }

  // Sort, keep the first object of each key, then keep the live ones.
  method PickCursors(size: BlobSize, diff: seq<LedgerObject>) returns (cursors: seq<Key>)
    requires Measures(size)
    ensures Picked(cursors, diff)
    ensures forall i, j | 0 <= i < j < |cursors| :: cursors[i] < cursors[j]
    ensures forall k :: k in cursors <==>
      (exists o :: o in diff && o.key == k) && forall o | o in diff && o.key == k :: o.blob != Empty
  {
    var sorted := SortDiff(size, diff);
    SortDiffSorts(size, diff);
    cursors := [];
    for i := 0 to |sorted|
      invariant Ascending(cursors)
      invariant forall k | k in cursors :: i > 0 && k <= sorted[i - 1].key
      invariant forall k :: k in cursors <==> Chosen(sorted, i, k)
    {
      ghost var before := cursors;
      if FirstOfKey(sorted, i) && size(sorted[i].blob) > 0 {
        assert i > 0 ==> !Before(size, sorted[i], sorted[i - 1]);
        forall j | 0 <= j < |cursors| ensures cursors[j] < sorted[i].key {
          assert cursors[j] in cursors;
        }
        cursors := cursors + [sorted[i].key];
        assert ChosenAt(sorted, i, sorted[i].key);
      }
      assert i > 0 ==> !Before(size, sorted[i], sorted[i - 1]);
      forall k ensures Chosen(sorted, i + 1, k) <==> Chosen(sorted, i, k) || ChosenAt(sorted, i, k) {
        if j: nat :| j < i && ChosenAt(sorted, j, k) {
          assert Chosen(sorted, i + 1, k);
        }
      }
    }
    forall k ensures k in cursors <==> WrittenNotDeleted(diff, k) {
      ChosenMeaning(size, diff, sorted, k);
    }
  }

  predicate FirstOfKey(sorted: seq<LedgerObject>, i: nat)
    requires i < |sorted|
  {
    i == 0 || sorted[i - 1].key != sorted[i].key
  }

  // The first object of a key is a deletion if any of them is.
  lemma FirstDecides(size: BlobSize, sorted: seq<LedgerObject>, j: nat)
    requires Measures(size)
    requires Sorted(size, sorted) && j < |sorted| && FirstOfKey(sorted, j)
    ensures sorted[j].blob != Empty <==> forall o | o in sorted && o.key == sorted[j].key :: o.blob != Empty
  {
    assert sorted[j] in sorted;
    if j > 0 {
      assert !Before(size, sorted[j], sorted[j - 1]);
      forall i | 0 <= i < j ensures sorted[i].key < sorted[j].key {
        assert i == j - 1 || !Before(size, sorted[j - 1], sorted[i]);
      }
    }
    forall o | o in sorted && o.key == sorted[j].key ensures sorted[j].blob != Empty ==> o.blob != Empty {
      var i :| 0 <= i < |sorted| && sorted[i] == o;
      assert j == i || !Before(size, sorted[i], sorted[j]);
    }
  }

  ghost predicate ChosenAt(sorted: seq<LedgerObject>, j: nat, k: Key)
    requires j < |sorted|
  {
    FirstOfKey(sorted, j) && sorted[j].blob != Empty && sorted[j].key == k
  }

  ghost predicate Chosen(sorted: seq<LedgerObject>, n: nat, k: Key)
    requires n <= |sorted|
  {
    exists j: nat :: j < n && ChosenAt(sorted, j, k)
  }

  lemma ChosenMeaning(size: BlobSize, diff: seq<LedgerObject>, sorted: seq<LedgerObject>, k: Key)
    requires Measures(size)
    requires Sorted(size, sorted) && multiset(sorted) == multiset(diff)
    ensures Chosen(sorted, |sorted|, k) <==> WrittenNotDeleted(diff, k)
  {
    forall o ensures o in diff <==> o in sorted {
      assert o in diff <==> o in multiset(diff);
      assert o in sorted <==> o in multiset(sorted);
    }
    if Chosen(sorted, |sorted|, k) {
      var j: nat :| j < |sorted| && ChosenAt(sorted, j, k);
      FirstDecides(size, sorted, j);
      assert sorted[j] in diff;
    }
    if WrittenNotDeleted(diff, k) {
      var o :| o in diff && o.key == k;
      var i :| 0 <= i < |sorted| && sorted[i] == o;
      var j := FirstIndex(sorted, k, i);
      assert sorted[j] in diff;
      assert ChosenAt(sorted, j, k);
    }
  }

  lemma {:induction false} FirstIndex(sorted: seq<LedgerObject>, k: Key, i: nat) returns (j: nat)
    requires i < |sorted| && sorted[i].key == k
    ensures j <= i && FirstOfKey(sorted, j) && sorted[j].key == k
  {
    if FirstOfKey(sorted, i) {
      j := i;
    } else {
      j := FirstIndex(sorted, k, i - 1);
    }
  }

  // Each ledger of the history is the previous one with its objects applied.
  ghost predicate Evolves(history: seq<State>, steps: seq<seq<LedgerObject>>) {
    && |steps| == |history|
    && forall t | 1 <= t < |history| :: Distinct(steps[t]) && history[t] == Apply(history[t - 1], steps[t])
  }

  // The objects of the last `window` ledgers up to `base`, newest first.
  function RecentObjects(steps: seq<seq<LedgerObject>>, base: nat, window: nat): seq<LedgerObject>
    requires window <= base < |steps|
  {
    if window == 0 then [] else steps[base] + RecentObjects(steps, base - 1, window - 1)
  }

  // So every cursor is live in the ledger being read, where its successor record is kept up to date.
  lemma {:induction false} CursorsAreLive(
    history: seq<State>, steps: seq<seq<LedgerObject>>, base: nat, window: nat, key: Key)
    requires Evolves(history, steps) && window <= base < |history|
    requires WrittenNotDeleted(RecentObjects(steps, base, window), key)
    ensures key in history[base]
  {
    var recent := RecentObjects(steps, base, window);
    assert forall o | o in steps[base] :: o in recent;
    if Touches(steps[base], key) {
      var o :| o in steps[base] && o.key == key;
      ApplyTouched(history[base - 1], steps[base], o);
    } else {
      var earlier := RecentObjects(steps, base - 1, window - 1);
      assert forall o | o in earlier :: o in recent;
      assert Touches(earlier, key) by {
        var o :| o in recent && o.key == key;
        assert o in earlier;
      }
      CursorsAreLive(history, steps, base - 1, window - 1, key);
      ApplyUntouched(history[base - 1], steps[base], key);
    }
  }
}
