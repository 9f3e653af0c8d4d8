// Ledger state: a map from 256-bit keys to blobs, ordered by key.
module Ledger {
  const FIRST_KEY: int := 0
  const LAST_KEY: int := 0xFFFFFFFFFFFFFFFFFFFFFFFFFFFFFFFFFFFFFFFFFFFFFFFFFFFFFFFFFFFFFFFF
  // The low eight bytes of a book directory's key are its quality.
  const QUALITY_SPAN: int := 0x1_0000_0000_0000_0000

  type Key = k: int | FIRST_KEY <= k <= LAST_KEY

  type TokenId = nat
  type Uri = seq<nat>
  datatype Token = Token(id: TokenId, uri: Uri)

  // What a serialized ledger entry holds, as far as this code looks into it.
  datatype Content =
    | Directory(owned: bool, indexes: seq<Key>, next: nat)
    | TokenPage(tokens: seq<Token>)
    | Other(bytes: seq<nat>)

  // An empty blob marks a deletion.
  datatype Blob = Empty | Data(content: Content)

  datatype LedgerObject = LedgerObject(key: Key, blob: Blob)

  type State = map<Key, Blob>

  datatype LedgerRange = LedgerRange(min: nat, max: nat)

  // Live objects have data, and keys strictly between the two sentinels.
  ghost predicate Proper(state: State) {
    forall k | k in state :: FIRST_KEY < k < LAST_KEY && state[k] != Empty
  }

  function Lookup(state: State, key: Key): Blob {
    if key in state then state[key] else Empty
  }

  predicate IsBookDir(blob: Blob) {
    blob.Data? && blob.content.Directory? && !blob.content.owned
  }

  // The key with its quality cleared.
  function BookBase(key: Key): Key {
    key - key % QUALITY_SPAN
  }

  /* Neighbours in key order */

  ghost function Above(keys: set<Key>, key: Key): set<Key> {
    set k | k in keys && k > key
  }

  ghost function Below(keys: set<Key>, key: Key): set<Key> {
    set k | k in keys && k < key
  }

  predicate IsNext(keys: set<Key>, key: Key, n: Key) {
    n in keys && n > key && forall k | k in keys && k > key :: n <= k
  }

  predicate IsPrev(keys: set<Key>, key: Key, p: Key) {
    p in keys && p < key && forall k | k in keys && k < key :: k <= p
  }

  ghost function Least(keys: set<Key>): (m: Key)
    requires keys != {}
    ensures m in keys && forall k | k in keys :: m <= k
  {
    var x :| x in keys;
    var rest := keys - {x};
    assert keys == rest + {x};
    if rest == {} then x else var m := Least(rest); if x < m then x else m
  }

  ghost function Greatest(keys: set<Key>): (m: Key)
    requires keys != {}
    ensures m in keys && forall k | k in keys :: k <= m
  {
    var x :| x in keys;
    var rest := keys - {x};
    assert keys == rest + {x};
    if rest == {} then x else var m := Greatest(rest); if x > m then x else m
  }

  // The least key above `key`, or LAST_KEY.
  function Next(keys: set<Key>, key: Key): (n: Key)
    ensures n == LAST_KEY || (n in keys && n > key)
    ensures forall k | k in keys && k > key :: n <= k
  {
    if exists k :: k in keys && k > key then
      assert forall k | k in keys && k > key :: k in Above(keys, key);
      ghost var least := Least(Above(keys, key));
      assert IsNext(keys, key, least);
      var n: Key :| n in keys && IsNext(keys, key, n);
      n
    else
      LAST_KEY
  }

  // The greatest key below `key`, or FIRST_KEY.
  function Prev(keys: set<Key>, key: Key): (p: Key)
    ensures p == FIRST_KEY || (p in keys && p < key)
    ensures forall k | k in keys && k < key :: k <= p
  {
    if exists k :: k in keys && k < key then
      assert forall k | k in keys && k < key :: k in Below(keys, key);
      ghost var greatest := Greatest(Below(keys, key));
      assert IsPrev(keys, key, greatest);
      var p: Key :| p in keys && IsPrev(keys, key, p);
      p
    else
      FIRST_KEY
  }

  // Keys above `key` in ascending order.
  function KeysAfter(keys: set<Key>, key: Key): seq<Key>
    requires LAST_KEY !in keys
    decreases Above(keys, key)
  {
    var n := Next(keys, key);
    if n == LAST_KEY then
      []
    else
      assert n in Above(keys, key) && n !in Above(keys, n);
      [n] + KeysAfter(keys, n)
  }

  ghost predicate Ascending(s: seq<Key>) {
    forall i, j | 0 <= i < j < |s| :: s[i] < s[j]
  }

  lemma {:induction false} KeysAfterHolds(keys: set<Key>, key: Key)
    requires LAST_KEY !in keys
    ensures forall k :: k in KeysAfter(keys, key) <==> k in keys && k > key
    decreases Above(keys, key)
  {
    var n := Next(keys, key);
    if n != LAST_KEY {
      assert n in Above(keys, key) && n !in Above(keys, n);
      KeysAfterHolds(keys, n);
    }
  }

  lemma AscendingFrom(first: Key, rest: seq<Key>)
    requires Ascending(rest) && forall k | k in rest :: first < k
    ensures Ascending([first] + rest)
  {
    forall i | 0 <= i < |rest| ensures first < rest[i] {
      assert rest[i] in rest;
    }
  }

  // Every key above `key` is listed once, in ascending order, and nothing else is.
  lemma {:induction false} KeysAfterIsSorted(keys: set<Key>, key: Key)
    requires LAST_KEY !in keys
    ensures Ascending(KeysAfter(keys, key))
    ensures forall k :: k in KeysAfter(keys, key) <==> k in keys && k > key
    decreases Above(keys, key)
  {
    KeysAfterHolds(keys, key);
    var n := Next(keys, key);
    if n != LAST_KEY {
      assert n in Above(keys, key) && n !in Above(keys, n);
      KeysAfterIsSorted(keys, n);
      AscendingFrom(n, KeysAfter(keys, n));
    }
  }

  // Cutting the enumeration after its i-th key: the rest is the enumeration from that key.
  lemma {:induction false} KeysAfterTail(keys: set<Key>, key: Key, i: nat)
    requires LAST_KEY !in keys
    requires i < |KeysAfter(keys, key)|
    ensures KeysAfter(keys, key)[i + 1..] == KeysAfter(keys, KeysAfter(keys, key)[i])
    decreases i
  {
    var n := Next(keys, key);
    if i > 0 {
      KeysAfterTail(keys, n, i - 1);
    }
  }

  /* One ledger to the next */

  predicate Distinct(objs: seq<LedgerObject>) {
    forall i, j | 0 <= i < j < |objs| :: objs[i].key != objs[j].key
  }

  ghost predicate Touches(objs: seq<LedgerObject>, key: Key) {
    exists o :: o in objs && o.key == key
  }

  // The state after the listed objects are written or deleted.
  function Apply(state: State, objs: seq<LedgerObject>): State {
    if objs == [] then
      state
    else
      var o := objs[|objs| - 1];
      var before := Apply(state, objs[..|objs| - 1]);
      if o.blob == Empty then before - {o.key} else before[o.key := o.blob]
  }

  lemma {:induction false} ApplyUntouched(state: State, objs: seq<LedgerObject>, key: Key)
    requires !Touches(objs, key)
    ensures Lookup(Apply(state, objs), key) == Lookup(state, key)
    ensures key in Apply(state, objs) <==> key in state
  {
    if objs != [] {
      var last := |objs| - 1;
      assert objs[last] in objs;
      ApplyUntouched(state, objs[..last], key);
    }
  }

  lemma {:induction false} ApplyTouched(state: State, objs: seq<LedgerObject>, o: LedgerObject)
    requires o in objs && Distinct(objs)
    ensures o.blob == Empty ==> o.key !in Apply(state, objs)
    ensures o.blob != Empty ==> o.key in Apply(state, objs) && Apply(state, objs)[o.key] == o.blob
  {
    var last := |objs| - 1;
    if objs[last] != o {
      ApplyTouched(state, objs[..last], o);
      assert objs[last].key != o.key;
    }
  }

  lemma {:induction false} ApplyProper(state: State, objs: seq<LedgerObject>)
    requires Proper(state)
    requires forall o | o in objs :: FIRST_KEY < o.key < LAST_KEY
    ensures Proper(Apply(state, objs))
  {
    if objs != [] {
      ApplyProper(state, objs[..|objs| - 1]);
    }
  }
}
