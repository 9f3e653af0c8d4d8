// The in-memory cache of the latest ledger (src/backend/SimpleCache.cpp).
module SimpleCaches {
  import opened Wrappers
  import opened Ledger

  // An entry that does not exist yet has ledger 0 and no blob.
  datatype Entry = Entry(ledger: nat, blob: Blob)

  datatype CacheState = CacheState(
    entries: map<Key, Entry>,
    latest: nat,
    full: bool,
    disabled: bool,
    deletes: set<Key>)

  const EMPTY_CACHE := CacheState(map[], 0, false, false, {})

  /* What each operation does, on values */

  function EntryAt(entries: map<Key, Entry>, key: Key): Entry {
    if key in entries then entries[key] else Entry(0, Empty)
  }

  function StoreOne(c: CacheState, o: LedgerObject, ledger: nat, background: bool): CacheState {
    if o.blob == Empty then
      c.(entries := c.entries - {o.key},
         deletes := if c.full || background then c.deletes else c.deletes + {o.key})
    else if background && o.key in c.deletes then
      c
    else
      var e := EntryAt(c.entries, o.key);
      c.(entries := c.entries[o.key := if ledger > e.ledger then Entry(ledger, o.blob) else e])
  }

  function StoreAll(c: CacheState, objs: seq<LedgerObject>, ledger: nat, background: bool): CacheState {
    if objs == [] then
      c
    else
      StoreOne(StoreAll(c, objs[..|objs| - 1], ledger, background), objs[|objs| - 1], ledger, background)
  }

  function Updated(c: CacheState, objs: seq<LedgerObject>, ledger: nat, background: bool): CacheState {
    if c.disabled then
      c
    else
      StoreAll(c.(latest := if ledger > c.latest then ledger else c.latest), objs, ledger, background)
  }

  function Filled(c: CacheState): CacheState {
    if c.disabled then c else c.(full := true, deletes := {})
  }

  // A full cache that holds one ledger, as of that ledger.
  function CacheOf(state: State, ledger: nat): CacheState {
    CacheState(map k | k in state :: Entry(ledger, state[k]), ledger, true, false, {})
  }

  function Cached(c: CacheState, key: Key, ledger: nat): Option<Blob> {
    if ledger > c.latest || key !in c.entries || ledger < c.entries[key].ledger then
      None
    else
      Some(c.entries[key].blob)
  }

  function CachedSuccessor(c: CacheState, key: Key, ledger: nat): Option<LedgerObject> {
    if !c.full || ledger != c.latest || forall k | k in c.entries :: k <= key then
      None
    else
      var n := UpperBound(c.entries, key);
      Some(LedgerObject(n, c.entries[n].blob))
  }

  function CachedPredecessor(c: CacheState, key: Key, ledger: nat): Option<LedgerObject> {
    if !c.full || ledger != c.latest || forall k | k in c.entries :: key <= k then
      None
    else
      var p := BeforeLowerBound(c.entries, key);
      Some(LedgerObject(p, c.entries[p].blob))
  }

  // std::map::upper_bound, when it is not end().
  function UpperBound(entries: map<Key, Entry>, key: Key): (n: Key)
    requires exists k :: k in entries && key < k
    ensures IsNext(entries.Keys, key, n)
  {
    assert forall k | k in entries && k > key :: k in Above(entries.Keys, key);
    ghost var least := Least(Above(entries.Keys, key));
    assert IsNext(entries.Keys, key, least);
    var n: Key :| n in entries.Keys && IsNext(entries.Keys, key, n);
    n
  }

  // The entry before std::map::lower_bound, when that is not begin().
  function BeforeLowerBound(entries: map<Key, Entry>, key: Key): (p: Key)
    requires exists k :: k in entries && k < key
    ensures IsPrev(entries.Keys, key, p)
  {
    assert forall k | k in entries && k < key :: k in Below(entries.Keys, key);
    ghost var greatest := Greatest(Below(entries.Keys, key));
    assert IsPrev(entries.Keys, key, greatest);
    var p: Key :| p in entries.Keys && IsPrev(entries.Keys, key, p);
    p
  }

  /* The cache itself; hit counters are not modelled */

  class SimpleCache {
    var entries: map<Key, Entry>
    var latest: nat
    var full: bool
    var disabled: bool
    var deletes: set<Key>

    function State(): CacheState
      reads this
    {
      CacheState(entries, latest, full, disabled, deletes)
    }

    constructor ()
      ensures State() == EMPTY_CACHE
    {
      entries, latest, full, disabled, deletes := map[], 0, false, false, {};
    }

    method Update(objs: seq<LedgerObject>, ledger: nat, background: bool)
      requires !disabled && ledger > latest ==> ledger == latest + 1 || latest == 0
      modifies this
      ensures State() == Updated(old(State()), objs, ledger, background)
      ensures disabled == old(disabled) && full == old(full) && (disabled ==> State() == old(State()))
      ensures !disabled ==> latest == if ledger > old(latest) then ledger else old(latest)
    {
      if disabled {
        return;
      }
      if ledger > latest {
        latest := ledger;
      }
      ghost var start := State();
      for i := 0 to |objs|
        invariant State() == StoreAll(start, objs[..i], ledger, background)
      {
        var o := objs[i];
        assert objs[..i + 1][..i] == objs[..i];
        if o.blob != Empty {
          if background && o.key in deletes {
            continue;
          }
          if o.key !in entries {
            entries := entries[o.key := Entry(0, Empty)];
          }
          if ledger > entries[o.key].ledger {
            entries := entries[o.key := Entry(ledger, o.blob)];
          }
        } else {
          entries := entries - {o.key};
          if !full && !background {
            deletes := deletes + {o.key};
          }
        }
      }
      assert objs[..|objs|] == objs;
      StoreAllRest(start, objs, ledger, background);
    }

    method Get(key: Key, ledger: nat) returns (blob: Option<Blob>)
      ensures blob == Cached(State(), key, ledger)
      ensures blob.Some? <==> ledger <= latest && key in entries && entries[key].ledger <= ledger
      ensures blob.Some? ==> blob.value == entries[key].blob
    {
      if ledger > latest || key !in entries || ledger < entries[key].ledger {
        return None;
      }
      return Some(entries[key].blob);
    }

    method GetSuccessor(key: Key, ledger: nat) returns (found: Option<LedgerObject>)
      ensures found == CachedSuccessor(State(), key, ledger)
      ensures found.Some? <==> full && ledger == latest && exists k :: k in entries && key < k
      ensures found.Some? ==>
        && found.value.key in entries && found.value.blob == entries[found.value.key].blob && key < found.value.key
        && forall k | k in entries && key < k :: found.value.key <= k
    {
      if !full || ledger != latest || forall k | k in entries :: k <= key {
        return None;
      }
      var n := UpperBound(entries, key);
      return Some(LedgerObject(n, entries[n].blob));
    }

    method GetPredecessor(key: Key, ledger: nat) returns (found: Option<LedgerObject>)
      ensures found == CachedPredecessor(State(), key, ledger)
      ensures found.Some? <==> full && ledger == latest && exists k :: k in entries && k < key
      ensures found.Some? ==>
        && found.value.key in entries && found.value.blob == entries[found.value.key].blob && found.value.key < key
        && forall k | k in entries && k < key :: k <= found.value.key
    {
      if !full || ledger != latest || forall k | k in entries :: key <= k {
        return None;
      }
      var p := BeforeLowerBound(entries, key);
      return Some(LedgerObject(p, entries[p].blob));
    }

    method SetDisabled()
      modifies this
      ensures State() == old(State()).(disabled := true)
    {
      disabled := true;
    }

    method SetFull()
      modifies this
      ensures State() == Filled(old(State()))
      ensures disabled == old(disabled) && entries == old(entries) && latest == old(latest)
      ensures full == (old(full) || !disabled) && deletes == if disabled then old(deletes) else {}
    {
      if disabled {
        return;
      }
      full := true;
      deletes := {};
    }
  }

  /* Pointwise meaning of a batch */

  lemma {:induction false} StoreAllRest(c: CacheState, objs: seq<LedgerObject>, ledger: nat, background: bool)
    ensures var d := StoreAll(c, objs, ledger, background);
      d.latest == c.latest && d.full == c.full && d.disabled == c.disabled
      && c.deletes <= d.deletes && (forall k | k in d.deletes - c.deletes :: Touches(objs, k))
      && ((c.full || background) ==> d.deletes == c.deletes)
  {
    if objs != [] {
      var last := |objs| - 1;
      StoreAllRest(c, objs[..last], ledger, background);
      forall k | Touches(objs[..last], k) || k == objs[last].key ensures Touches(objs, k) {
        if k == objs[last].key {
          assert objs[last] in objs;
        } else {
          var o :| o in objs[..last] && o.key == k;
          assert o in objs;
        }
      }
    }
  }

  lemma {:induction false} StoreAllUntouched(
    c: CacheState, objs: seq<LedgerObject>, ledger: nat, background: bool, key: Key)
    requires !Touches(objs, key)
    ensures var d := StoreAll(c, objs, ledger, background);
      (key in d.entries <==> key in c.entries) && EntryAt(d.entries, key) == EntryAt(c.entries, key)
  {
    if objs != [] {
      var last := |objs| - 1;
      assert objs[last] in objs;
      StoreAllUntouched(c, objs[..last], ledger, background, key);
    }
  }

  lemma {:induction false} StoreAllTouched(
    c: CacheState, objs: seq<LedgerObject>, ledger: nat, background: bool, o: LedgerObject)
    requires o in objs && Distinct(objs)
    ensures var d := StoreAll(c, objs, ledger, background);
      var e := EntryAt(c.entries, o.key);
      if o.blob == Empty then
        o.key !in d.entries && (!c.full && !background ==> o.key in d.deletes)
      else if background && o.key in c.deletes then
        (o.key in d.entries <==> o.key in c.entries) && EntryAt(d.entries, o.key) == e
      else
        o.key in d.entries && d.entries[o.key] == if ledger > e.ledger then Entry(ledger, o.blob) else e
  {
    var last := |objs| - 1;
    StoreAllRest(c, objs[..last], ledger, background);
    if objs[last] == o {
      assert !Touches(objs[..last], o.key) by {
        forall q | q in objs[..last] ensures q.key != o.key {
          var i :| 0 <= i < last && objs[i] == q;
        }
      }
      StoreAllUntouched(c, objs[..last], ledger, background, o.key);
    } else {
      StoreAllTouched(c, objs[..last], ledger, background, o);
    }
  }
}
