// Filling the cache: background cursors read an old ledger while new ledgers are
// applied in the foreground (src/etl/ReportingETL.cpp, loadCacheFromDb and publishLedger).
module CacheLoad {
  import opened Wrappers
  import opened Ledger
  import opened SimpleCaches
  import opened Pages

  /* What the cache owes its readers */

  ghost function Latest(history: seq<State>): int {
    |history| - 1
  }

  // The entry's blob has been the object's value in every ledger since the entry's.
  ghost predicate GoodEntry(c: CacheState, history: seq<State>, key: Key) {
    key in c.entries
    && c.entries[key].blob != Empty
    && c.entries[key].ledger < |history|
    && forall t | c.entries[key].ledger <= t < |history| ::
         key in history[t] && history[t][key] == c.entries[key].blob
  }

  ghost predicate CacheSound(c: CacheState, history: seq<State>) {
    c.latest < |history| && forall k | k in c.entries :: GoodEntry(c, history, k)
  }

  // The cache holds exactly the state of the latest ledger.
  ghost predicate CacheExact(c: CacheState, history: seq<State>) {
    && CacheSound(c, history)
    && c.full
    && c.latest == Latest(history)
    && c.entries.Keys == history[c.latest].Keys
  }

  lemma SoundReads(c: CacheState, history: seq<State>, key: Key, ledger: nat)
    requires CacheSound(c, history)
    ensures Cached(c, key, ledger).Some? ==>
      ledger < |history| && key in history[ledger] && Cached(c, key, ledger).value == history[ledger][key]
  {
    if Cached(c, key, ledger).Some? {
      assert GoodEntry(c, history, key);
    }
  }

  // Of an exact cache, both neighbours are the true ones, at the latest ledger only.
  lemma ExactNeighbours(c: CacheState, history: seq<State>, key: Key, ledger: nat)
    requires CacheExact(c, history) && Proper(history[c.latest])
    ensures var keys := history[c.latest].Keys;
      var s := CachedSuccessor(c, key, ledger);
      && (s.Some? <==> ledger == Latest(history) && Next(keys, key) != LAST_KEY)
      && (s.Some? ==> s.value.key == Next(keys, key) && s.value.blob == history[ledger][s.value.key])
    ensures var keys := history[c.latest].Keys;
      var p := CachedPredecessor(c, key, ledger);
      && (p.Some? <==> ledger == Latest(history) && Prev(keys, key) != FIRST_KEY)
      && (p.Some? ==> p.value.key == Prev(keys, key) && p.value.blob == history[ledger][p.value.key])
  {
    var keys := history[c.latest].Keys;
    var s, p := CachedSuccessor(c, key, ledger), CachedPredecessor(c, key, ledger);
    if s.Some? {
      assert IsNext(c.entries.Keys, key, s.value.key);
      assert GoodEntry(c, history, s.value.key);
    }
    if p.Some? {
      assert IsPrev(c.entries.Keys, key, p.value.key);
      assert GoodEntry(c, history, p.value.key);
    }
  }

  /* The protocol */

  // A cursor task covers the keys in (cursor, end]; no end means the rest of the ledger.
  datatype Task =
    | Running(cursor: Key, end: Option<Key>)
    | Retiring
    | Done

  datatype Load = Load(
    cache: CacheState,
    history: seq<State>,
    base: nat,             // the ledger the background tasks read
    tasks: seq<Task>,
    remaining: int,
    ghost touched: set<Key>,  // keys some foreground ledger wrote or deleted
    ghost loaded: set<Key>)   // keys some background page held

  ghost predicate Covers(task: Task, key: Key) {
    task.Running? && task.cursor < key && (task.end.Some? ==> key <= task.end.value)
  }

  // Tasks for consecutive cursors: from the start of the ledger, through each cursor, to its end.
  function TasksFor(cursors: seq<Key>): seq<Task> {
    seq(|cursors| + 1, i requires 0 <= i <= |cursors| =>
      Running(if i == 0 then FIRST_KEY else cursors[i - 1],
              if i == |cursors| then None else Some(cursors[i])))
  }

  ghost predicate Init(s: Load, cursors: seq<Key>) {
    && s.cache == EMPTY_CACHE
    && 0 < s.base == Latest(s.history)
    && Proper(s.history[s.base])
    && s.tasks == TasksFor(cursors)
    && s.remaining == |s.tasks|
    && s.touched == {} && s.loaded == {}
  }

  // What a ledger's objects say is still so later on: what it wrote is there, what it deleted is not.
  predicate StillSo(objs: seq<LedgerObject>, now: State) {
    forall o | o in objs :: o.blob == Empty <==> o.key !in now
  }

  // The objects of the next ledger are applied, or those of a ledger applied before: publishing
  // does not look at what the cache holds.
  ghost predicate UpdateStep(s: Load, s': Load, objs: seq<LedgerObject>, n: nat) {
    && |s.history| > 1
    && Distinct(objs)
    && (forall o | o in objs :: FIRST_KEY < o.key < LAST_KEY)
    && (n == |s.history| || (s.base < n < |s.history| && s.history[n] == Apply(s.history[n - 1], objs)))
    && s' == s.(
         cache := Updated(s.cache, objs, n, false),
         history := if n == |s.history| then s.history + [Apply(s.history[n - 1], objs)] else s.history,
         touched := s.touched + set o | o in objs :: o.key)
  }

  // Only a ledger that is still so is applied again, such as the newest one.
  ghost predicate ForegroundStep(s: Load, s': Load, objs: seq<LedgerObject>, n: nat) {
    UpdateStep(s, s', objs, n) && (n < |s.history| ==> StillSo(objs, s.history[|s.history| - 1]))
  }

  // A page is stored; the task goes on from the page's cursor, or stops.
  ghost predicate StoreStep(s: Load, s': Load, i: nat, page: LedgerPage) {
    && i < |s.tasks| && s.tasks[i].Running?
    && var stop := page.cursor.None? || (s.tasks[i].end.Some? && page.cursor.value > s.tasks[i].end.value);
    s' == s.(
      cache := Updated(s.cache, page.objects, s.base, true),
      tasks := s.tasks[i := if stop then Retiring else s.tasks[i].(cursor := page.cursor.value)],
      loaded := s.loaded + set o | o in page.objects :: o.key)
  }

  // The page is the true one of the ledger being loaded.
  ghost predicate PageStep(s: Load, s': Load, i: nat, limit: nat) {
    && i < |s.tasks| && s.tasks[i].Running?
    && s.base < |s.history| && Proper(s.history[s.base])
    && StoreStep(s, s', i, PageOf(s.history[s.base], s.tasks[i].cursor, limit))
  }

  // The last task to finish declares the cache full.
  ghost predicate RetireStep(s: Load, s': Load, i: nat) {
    && i < |s.tasks| && s.tasks[i] == Retiring
    && s' == s.(
         cache := if s.remaining - 1 == 0 then Filled(s.cache) else s.cache,
         tasks := s.tasks[i := Done],
         remaining := s.remaining - 1)
  }

  /* The invariant */

  function Unfinished(tasks: seq<Task>): nat {
    if tasks == [] then 0
    else Unfinished(tasks[..|tasks| - 1]) + if tasks[|tasks| - 1] == Done then 0 else 1
  }

  ghost predicate Shape(s: Load) {
    && 0 < s.base < |s.history|
    && (forall t | s.base <= t < |s.history| :: Proper(s.history[t]))
    && !s.cache.disabled
    && CacheSound(s.cache, s.history)
    && s.remaining == Unfinished(s.tasks)
    && (s.cache.latest != Latest(s.history) ==>
          s.cache == EMPTY_CACHE && s.base == Latest(s.history) && forall i | 0 <= i < |s.tasks| :: s.tasks[i].Running?)
  }

  // While loading: touched keys follow the foreground, untouched ones the base ledger.
  ghost predicate TouchedFollows(s: Load, k: Key)
    requires s.history != []
  {
    if k in s.history[Latest(s.history)] then
      k in s.cache.entries && s.cache.entries[k].ledger > s.base
    else
      k !in s.cache.entries && k in s.cache.deletes
  }

  ghost predicate Loading(s: Load)
    requires s.base < |s.history|
  {
    && s.cache.deletes <= s.touched
    && (forall k | k in s.touched :: TouchedFollows(s, k))
    && (forall k, t | k !in s.touched && s.base <= t < |s.history| ::
          Lookup(s.history[t], k) == Lookup(s.history[s.base], k))
    && (forall k | k in s.cache.entries && k !in s.touched :: s.cache.entries[k].ledger == s.base)
    && (forall k | k in s.loaded && k !in s.touched :: k in s.cache.entries)
    && (forall k | k in s.history[s.base] ::
          k in s.loaded || exists i :: 0 <= i < |s.tasks| && Covers(s.tasks[i], k))
    && s.remaining > 0
  }

  ghost predicate Inv(s: Load) {
    && Shape(s)
    && (!s.cache.full ==> Loading(s))
    && (s.cache.full ==> CacheExact(s.cache, s.history) && s.remaining == 0)
  }

  lemma {:induction false} UnfinishedAll(tasks: seq<Task>)
    requires forall i | 0 <= i < |tasks| :: tasks[i] != Done
    ensures Unfinished(tasks) == |tasks|
  {
    if tasks != [] {
      UnfinishedAll(tasks[..|tasks| - 1]);
    }
  }

  lemma {:induction false} UnfinishedReplace(tasks: seq<Task>, i: nat, task: Task)
    requires i < |tasks| && tasks[i] != Done
    ensures Unfinished(tasks[i := task]) == Unfinished(tasks) - (if task == Done then 1 else 0)
  {
    var last := |tasks| - 1;
    if i < last {
      assert tasks[i := task][..last] == tasks[..last][i := task];
      UnfinishedReplace(tasks[..last], i, task);
    } else {
      assert tasks[i := task][..last] == tasks[..last];
    }
  }

  lemma {:induction false} UnfinishedZero(tasks: seq<Task>)
    ensures Unfinished(tasks) == 0 ==> forall i | 0 <= i < |tasks| :: tasks[i] == Done
  {
    if tasks != [] {
      UnfinishedZero(tasks[..|tasks| - 1]);
    }
  }

  // Whatever the cursors are, and in whatever order, their intervals cover every key.
  lemma {:induction false} CursorsCover(cursors: seq<Key>, n: nat, key: Key)
    requires n <= |cursors| && FIRST_KEY < key
    requires forall j | n <= j < |cursors| :: cursors[j] >= key
    ensures exists i :: 0 <= i <= |cursors| && Covers(TasksFor(cursors)[i], key)
  {
    if n == 0 || cursors[n - 1] < key {
      assert Covers(TasksFor(cursors)[n], key);
    } else {
      CursorsCover(cursors, n - 1, key);
    }
  }

  lemma InitKeeps(s: Load, cursors: seq<Key>)
    requires Init(s, cursors)
    ensures Inv(s)
  {
    UnfinishedAll(s.tasks);
    forall k | k in s.history[s.base]
      ensures exists i :: 0 <= i < |s.tasks| && Covers(s.tasks[i], k)
    {
      CursorsCover(cursors, |cursors|, k);
    }
  }

  // What becomes of a key that the objects write or delete.
  ghost predicate FollowsNow(s: Load, s': Load, k: Key)
    requires s'.history != []
  {
    if k in s'.history[|s'.history| - 1] then
      GoodEntry(s'.cache, s'.history, k) && s'.cache.entries[k].ledger > s.base
    else
      k !in s'.cache.entries && (!s.cache.full ==> k in s'.cache.deletes)
  }

  lemma FreshTouched(s: Load, s': Load, objs: seq<LedgerObject>, k: Key)
    requires Shape(s) && UpdateStep(s, s', objs, |s.history|) && Touches(objs, k)
    ensures FollowsNow(s, s', k)
  {
    var n := |s.history|;
    var o :| o in objs && o.key == k;
    StoreAllTouched(s.cache.(latest := n), objs, n, false, o);
    ApplyTouched(s.history[n - 1], objs, o);
    if k in s.cache.entries {
      assert GoodEntry(s.cache, s.history, k);
    }
  }

  // A live key has its entry, or nothing has touched it since loading began.
  lemma EntryOrUntouched(s: Load, k: Key)
    requires Inv(s) && k in s.history[Latest(s.history)]
    ensures GoodEntry(s.cache, s.history, k)
      || forall t | s.base <= t < |s.history| :: Lookup(s.history[t], k) == Lookup(s.history[s.base], k)
  {
    if !s.cache.full && k in s.touched {
      assert TouchedFollows(s, k);
    }
    if k in s.cache.entries {
      assert GoodEntry(s.cache, s.history, k);
    }
  }

  lemma AgainTouched(s: Load, s': Load, objs: seq<LedgerObject>, n: nat, k: Key)
    requires Inv(s) && ForegroundStep(s, s', objs, n) && n < |s.history| && Touches(objs, k)
    ensures FollowsNow(s, s', k)
  {
    var o :| o in objs && o.key == k;
    StoreAllTouched(s.cache, objs, n, false, o);
    ApplyTouched(s.history[n - 1], objs, o);
    if k in s.history[Latest(s.history)] {
      EntryOrUntouched(s, k);
      assert Lookup(s.history[n], k) == o.blob;
      forall t | n <= t < |s.history| ensures Lookup(s.history[t], k) == o.blob || n <= EntryAt(s.cache.entries, k).ledger {
      }
    }
  }

  lemma ForegroundTouched(s: Load, s': Load, objs: seq<LedgerObject>, n: nat, k: Key)
    requires Inv(s) && ForegroundStep(s, s', objs, n) && Touches(objs, k)
    ensures FollowsNow(s, s', k)
  {
    if n == |s.history| {
      FreshTouched(s, s', objs, k);
    } else {
      AgainTouched(s, s', objs, n, k);
    }
  }

  // And of any other key.
  lemma ForegroundUntouched(s: Load, s': Load, objs: seq<LedgerObject>, n: nat, k: Key)
    requires Shape(s) && UpdateStep(s, s', objs, n) && !Touches(objs, k)
    ensures k in s'.cache.entries <==> k in s.cache.entries
    ensures EntryAt(s'.cache.entries, k) == EntryAt(s.cache.entries, k)
    ensures k in s'.history[Latest(s'.history)] <==> k in s.history[Latest(s.history)]
    ensures Lookup(s'.history[Latest(s'.history)], k) == Lookup(s.history[Latest(s.history)], k)
  {
    StoreAllUntouched(s.cache.(latest := if n > s.cache.latest then n else s.cache.latest), objs, n, false, k);
    if n == |s.history| {
      ApplyUntouched(s.history[n - 1], objs, k);
    }
  }

  // The rest of the cache after such a step.
  lemma UpdatedShape(s: Load, s': Load, objs: seq<LedgerObject>, n: nat)
    requires Shape(s) && UpdateStep(s, s', objs, n)
    ensures forall t | s'.base <= t < |s'.history| :: Proper(s'.history[t])
    ensures !s'.cache.disabled && s'.cache.full == s.cache.full && s'.cache.latest == Latest(s'.history)
  {
    StoreAllRest(s.cache.(latest := if n > s.cache.latest then n else s.cache.latest), objs, n, false);
    if n == |s.history| {
      ApplyProper(s.history[n - 1], objs);
    }
  }

  lemma ForegroundKeeps(s: Load, s': Load, objs: seq<LedgerObject>, n: nat)
    requires Inv(s) && ForegroundStep(s, s', objs, n)
    ensures Inv(s')
  {
    UpdatedShape(s, s', objs, n);
    ForegroundSound(s, s', objs, n);
    if s.cache.full {
      ForegroundExact(s, s', objs, n);
    } else {
      ForegroundLoading(s, s', objs, n);
    }
  }

  lemma ForegroundExact(s: Load, s': Load, objs: seq<LedgerObject>, n: nat)
    requires Inv(s) && s.cache.full && ForegroundStep(s, s', objs, n)
    ensures s'.cache.entries.Keys == s'.history[Latest(s'.history)].Keys
  {
    forall k ensures k in s'.cache.entries <==> k in s'.history[Latest(s'.history)] {
      if Touches(objs, k) {
        ForegroundTouched(s, s', objs, n, k);
      } else {
        ForegroundUntouched(s, s', objs, n, k);
      }
    }
  }

  lemma ForegroundSound(s: Load, s': Load, objs: seq<LedgerObject>, n: nat)
    requires Inv(s) && ForegroundStep(s, s', objs, n)
    ensures forall k | k in s'.cache.entries :: GoodEntry(s'.cache, s'.history, k)
  {
    forall k | k in s'.cache.entries
      ensures GoodEntry(s'.cache, s'.history, k)
    {
      if Touches(objs, k) {
        ForegroundTouched(s, s', objs, n, k);
      } else {
        ForegroundUntouched(s, s', objs, n, k);
        assert GoodEntry(s.cache, s.history, k);
      }
    }
  }

  lemma ForegroundLoading(s: Load, s': Load, objs: seq<LedgerObject>, n: nat)
    requires Inv(s) && ForegroundStep(s, s', objs, n) && !s.cache.full
    ensures Loading(s')
  {
    DeletesAreTouched(s, s', objs, n);
    forall k ensures Touches(objs, k) <==> k in set o | o in objs :: o.key {
    }
    forall k | k in s'.touched ensures TouchedFollows(s', k) {
      if Touches(objs, k) {
        ForegroundTouched(s, s', objs, n, k);
      } else {
        ForegroundUntouched(s, s', objs, n, k);
        assert TouchedFollows(s, k);
      }
    }
    forall k | k !in s'.touched
      ensures forall t | s'.base <= t < |s'.history| :: Lookup(s'.history[t], k) == Lookup(s'.history[s'.base], k)
      ensures k in s'.cache.entries ==> s'.cache.entries[k].ledger == s'.base
      ensures k in s'.loaded ==> k in s'.cache.entries
    {
      ForegroundUntouched(s, s', objs, n, k);
    }
  }

  lemma DeletesAreTouched(s: Load, s': Load, objs: seq<LedgerObject>, n: nat)
    requires Shape(s) && Loading(s) && UpdateStep(s, s', objs, n)
    ensures s.cache.deletes <= s'.cache.deletes <= s'.touched
  {
    var c := s.cache.(latest := if n > s.cache.latest then n else s.cache.latest);
    StoreAllRest(c, objs, n, false);
    forall k | k in s'.cache.deletes ensures k in s'.touched {
      assert k in c.deletes || k in s'.cache.deletes - c.deletes;
    }
  }

  /* Publishing out of order */

  // The newest ledger is always still so.
  lemma NewestIsStillSo(before: State, objs: seq<LedgerObject>)
    requires Distinct(objs)
    ensures StillSo(objs, Apply(before, objs))
  {
    forall o | o in objs ensures o.blob == Empty <==> o.key !in Apply(before, objs) {
      ApplyTouched(before, objs, o);
    }
  }

  // A ledger applied again leaves the cache right, while it is loading and afterwards, if and only
  // if no key that the ledger wrote has been deleted since, and none that it deleted is back.
  lemma AgainKeepsIffStillSo(s: Load, s': Load, objs: seq<LedgerObject>, n: nat)
    requires Inv(s) && UpdateStep(s, s', objs, n) && n < |s.history|
    ensures Inv(s') <==> StillSo(objs, s.history[Latest(s.history)])
  {
    if StillSo(objs, s.history[Latest(s.history)]) {
      ForegroundKeeps(s, s', objs, n);
    } else {
      var o :| o in objs && !(o.blob == Empty <==> o.key !in s.history[Latest(s.history)]);
      StaleObject(s, s', objs, n, o);
      UpdatedShape(s, s', objs, n);
      assert o.key in s'.touched;
      assert if o.blob == Empty then !TouchedFollows(s', o.key) else !GoodEntry(s'.cache, s'.history, o.key);
    }
  }

  // Otherwise a deleted key is read as if it were live, or a live one is lost.
  lemma StaleObject(s: Load, s': Load, objs: seq<LedgerObject>, n: nat, o: LedgerObject)
    requires Inv(s) && UpdateStep(s, s', objs, n) && n < |s.history| && o in objs
    requires var now := s.history[Latest(s.history)]; !(o.blob == Empty <==> o.key !in now)
    ensures o.blob == Empty ==> o.key in s.history[Latest(s.history)] && o.key !in s'.cache.entries
    ensures o.blob != Empty ==>
      o.key !in s.history[Latest(s.history)] && Cached(s'.cache, o.key, Latest(s.history)) == Some(o.blob)
  {
    StoreAllTouched(s.cache, objs, n, false, o);
    UpdatedShape(s, s', objs, n);
    if o.key in s.cache.entries {
      assert GoodEntry(s.cache, s.history, o.key);
    }
  }

  // Key 5 is written at ledger 2 and deleted at ledger 3; then ledger 2 is published again.
  const SHORT_LIVED := LedgerObject(5, Data(Other([])))
  const SHORT_HISTORY: seq<State> := [map[], map[], map[5 := Data(Other([]))], map[]]
  const SHORT_CACHE := CacheState(map[], 3, true, false, {})

  lemma PublishedTooLate()
    ensures CacheExact(SHORT_CACHE, SHORT_HISTORY)
    ensures SHORT_HISTORY[2] == Apply(SHORT_HISTORY[1], [SHORT_LIVED]) && 5 !in SHORT_HISTORY[3]
    ensures Cached(Updated(SHORT_CACHE, [SHORT_LIVED], 2, false), 5, 3) == Some(SHORT_LIVED.blob)
  {
    var objs := [SHORT_LIVED];
    assert objs[..0] == [];
    StoreAllTouched(SHORT_CACHE, objs, 2, false, SHORT_LIVED);
    StoreAllRest(SHORT_CACHE, objs, 2, false);
  }

  // A background page, seen from one key.
  lemma PageAt(s: Load, s': Load, i: nat, limit: nat, k: Key)
    requires Shape(s) && Loading(s) && PageStep(s, s', i, limit) && limit > 0
    ensures k in s.touched || !Touches(PageOf(s.history[s.base], s.tasks[i].cursor, limit).objects, k) ==>
      (k in s'.cache.entries <==> k in s.cache.entries) && EntryAt(s'.cache.entries, k) == EntryAt(s.cache.entries, k)
    ensures k !in s.touched && Touches(PageOf(s.history[s.base], s.tasks[i].cursor, limit).objects, k) ==>
      k in s.history[s.base] && k in s'.cache.entries
      && s'.cache.entries[k] == Entry(s.base, s.history[s.base][k])
  {
    var page := PageOf(s.history[s.base], s.tasks[i].cursor, limit);
    var c := s.cache.(latest := if s.base > s.cache.latest then s.base else s.cache.latest);
    PageCovers(s.history[s.base], s.tasks[i].cursor, limit);
    if Touches(page.objects, k) {
      var o :| o in page.objects && o.key == k;
      StoreAllTouched(c, page.objects, s.base, true, o);
      if k in s.touched {
        assert TouchedFollows(s, k);
      } else if k in s.cache.entries {
        assert GoodEntry(s.cache, s.history, k);
      }
    } else {
      StoreAllUntouched(c, page.objects, s.base, true, k);
    }
  }

  lemma PageKeeps(s: Load, s': Load, i: nat, limit: nat)
    requires Inv(s) && PageStep(s, s', i, limit) && limit > 0
    ensures Inv(s')
  {
    var page := PageOf(s.history[s.base], s.tasks[i].cursor, limit);
    var c := s.cache.(latest := if s.base > s.cache.latest then s.base else s.cache.latest);
    StoreAllRest(c, page.objects, s.base, true);
    UnfinishedReplace(s.tasks, i, s'.tasks[i]);
    UnfinishedZero(s.tasks);
    assert !s.cache.full;
    PageSound(s, s', i, limit);
    PageLoading(s, s', i, limit);
  }

  lemma PageSound(s: Load, s': Load, i: nat, limit: nat)
    requires Shape(s) && Loading(s) && PageStep(s, s', i, limit) && limit > 0
    ensures forall k | k in s'.cache.entries :: GoodEntry(s'.cache, s'.history, k)
  {
    var page := PageOf(s.history[s.base], s.tasks[i].cursor, limit);
    forall k | k in s'.cache.entries
      ensures GoodEntry(s'.cache, s'.history, k)
    {
      PageAt(s, s', i, limit, k);
      if k in s.touched || !Touches(page.objects, k) {
        assert GoodEntry(s.cache, s.history, k);
      } else {
        forall t | s.base <= t < |s.history| ensures k in s.history[t] && s.history[t][k] == s.history[s.base][k] {
          assert Lookup(s.history[t], k) == Lookup(s.history[s.base], k);
        }
      }
    }
  }

  lemma PageLoading(s: Load, s': Load, i: nat, limit: nat)
    requires Shape(s) && Loading(s) && PageStep(s, s', i, limit) && limit > 0
    ensures Loading(s')
  {
    var page := PageOf(s.history[s.base], s.tasks[i].cursor, limit);
    var c := s.cache.(latest := if s.base > s.cache.latest then s.base else s.cache.latest);
    StoreAllRest(c, page.objects, s.base, true);
    PageCovers(s.history[s.base], s.tasks[i].cursor, limit);
    forall k ensures Touches(page.objects, k) <==> k in set o | o in page.objects :: o.key {
    }
    forall k | k in s'.touched ensures TouchedFollows(s', k) {
      PageAt(s, s', i, limit, k);
      assert TouchedFollows(s, k);
    }
    forall k | k !in s'.touched
      ensures k in s'.cache.entries ==> s'.cache.entries[k].ledger == s'.base
      ensures k in s'.loaded ==> k in s'.cache.entries
    {
      PageAt(s, s', i, limit, k);
    }
    forall k | k in s'.history[s'.base]
      ensures k in s'.loaded || exists j :: 0 <= j < |s'.tasks| && Covers(s'.tasks[j], k)
    {
      if k !in s'.loaded {
        var j :| 0 <= j < |s.tasks| && Covers(s.tasks[j], k);
        assert Covers(s'.tasks[j], k);
      }
    }
  }

  lemma RetireKeeps(s: Load, s': Load, i: nat)
    requires Inv(s) && RetireStep(s, s', i)
    ensures Inv(s')
  {
    UnfinishedReplace(s.tasks, i, Done);
    UnfinishedZero(s.tasks);
    UnfinishedZero(s'.tasks);
    assert !s.cache.full;
    forall k | k in s.cache.entries ensures GoodEntry(s'.cache, s'.history, k) {
      assert GoodEntry(s.cache, s.history, k);
    }
    if s.remaining == 1 {
      forall j | 0 <= j < |s.tasks| ensures !s.tasks[j].Running? {
        if j != i {
          assert s'.tasks[j] == Done;
        }
      }
      forall k ensures k in s.cache.entries <==> k in s.history[Latest(s.history)] {
        assert k in s.touched ==> TouchedFollows(s, k);
        assert Lookup(s.history[Latest(s.history)], k) == Lookup(s.history[s.base], k) || k in s.touched;
        if k in s.cache.entries {
          assert GoodEntry(s.cache, s.history, k);
        }
        assert k in s.history[s.base] ==> k in s.loaded;
      }
    } else {
      forall k | k in s'.touched ensures TouchedFollows(s', k) {
        assert TouchedFollows(s, k);
      }
      forall k | k in s'.history[s'.base]
        ensures k in s'.loaded || exists j :: 0 <= j < |s'.tasks| && Covers(s'.tasks[j], k)
      {
        if k !in s'.loaded {
          var j :| 0 <= j < |s.tasks| && Covers(s.tasks[j], k);
          assert Covers(s'.tasks[j], k);
        }
      }
    }
  }

  // The same keys and blobs as the latest ledger, and the same neighbours.
  ghost predicate MirrorsLatest(c: CacheState, history: seq<State>)
    requires history != []
  {
    var latest := history[|history| - 1];
    && (map k | k in c.entries :: c.entries[k].blob) == latest
    && forall key ::
      && (var s := CachedSuccessor(c, key, |history| - 1);
          (if s.Some? then s.value.key else LAST_KEY) == Next(latest.Keys, key))
      && (var p := CachedPredecessor(c, key, |history| - 1);
          (if p.Some? then p.value.key else FIRST_KEY) == Prev(latest.Keys, key))
  }

  // The cache is full exactly when every task is done, and then it is the latest ledger,
  // object for object, with true neighbours.
  lemma FullCacheMirrors(s: Load)
    requires Inv(s)
    ensures s.cache.full <==> forall i | 0 <= i < |s.tasks| :: s.tasks[i] == Done
    ensures s.cache.full ==> MirrorsLatest(s.cache, s.history)
  {
    UnfinishedZero(s.tasks);
    if forall i | 0 <= i < |s.tasks| :: s.tasks[i] == Done {
      AllDone(s.tasks);
    }
    if s.cache.full {
      var latest := s.history[Latest(s.history)];
      forall k | k in s.cache.entries ensures s.cache.entries[k].blob == latest[k] {
        assert GoodEntry(s.cache, s.history, k);
      }
      forall key
        ensures var q := CachedSuccessor(s.cache, key, |s.history| - 1);
          (if q.Some? then q.value.key else LAST_KEY) == Next(latest.Keys, key)
        ensures var p := CachedPredecessor(s.cache, key, |s.history| - 1);
          (if p.Some? then p.value.key else FIRST_KEY) == Prev(latest.Keys, key)
      {
        ExactNeighbours(s.cache, s.history, key, s.cache.latest);
      }
    }
  }

  lemma {:induction false} AllDone(tasks: seq<Task>)
    requires forall i | 0 <= i < |tasks| :: tasks[i] == Done
    ensures Unfinished(tasks) == 0
  {
    if tasks != [] {
      AllDone(tasks[..|tasks| - 1]);
    }
  }
}
