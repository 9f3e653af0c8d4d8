// A server over its whole life: ledgers are built here or by other processes, the cache is filled
// from pages read meanwhile, and the process restarts. Every read of a committed ledger is that
// ledger, at every moment (src/etl/ReportingETL.cpp and src/backend/BackendInterface.cpp).
module Services {
  import opened Wrappers
  import opened Tables
  import opened Ledger
  import opened SimpleCaches
  import opened Pages
  import opened Backends
  import opened CacheLoad
  import opened CacheCursors
  import opened BuildLedger
  import opened Successors
  import opened Refinement
  import opened LateRows
  import InitialLoad
  import InitialRanges

  // The ledgers the network agrees on, the objects each of them changes, and the first one stored.
  datatype Network = Network(states: seq<State>, diffs: seq<seq<LedgerObject>>, first: nat)

  ghost predicate Agreed(net: Network) {
    && 0 < net.first < |net.states|
    && Evolves(net.states, net.diffs)
    && forall t | net.first <= t < |net.states| :: Proper(net.states[t])
  }

  // A page being read for a background task: the keys listed so far, whether the list has ended,
  // what the cache said of the keys, and the objects. Every read happens at its own moment.
  datatype Reading = Reading(listed: seq<Key>, ended: bool, looked: seq<Blob>, blobs: seq<Blob>)

  const NOTHING_READ := Reading([], false, [], [])

  // A ledger written here but not committed yet, and the cache before it.
  datatype Pending = Pending(raw: RawLedger, before: CacheState)

  datatype Service = Service(
    load: Load,
    readings: seq<Reading>,       // one for each task
    objects: Table<Key, Blob>,
    successor: Table<Key, Key>,
    committed: nat,               // the newest ledger that can be asked for
    pending: Option<Pending>)

  datatype Event =
    | Begin(raw: RawLedger)                // this process applies a ledger to its cache, to write it
    | WriteAhead                           // rows of the next ledger land, complete or not
    | LandLate(ledger: nat)                // rows of a committed ledger land, from whoever lost the race
    | Finish                               // this process has written that ledger and commits it
    | Abandon                              // or has lost the race
    | Follow(raw: RawLedger, cache: CacheState)  // another process, with its own cache, commits
    | Publish(objs: seq<LedgerObject>, ledger: nat)  // a committed ledger reaches the cache, maybe again
    | Read(task: nat)                      // one read of a task's page
    | Store(task: nat)                     // the page goes into the cache
    | Retire(task: nat)
    | Restart(window: nat, cursors: seq<Key>)

  /* Building and committing */

  // The ledger is the next one for the cache, or the newest it holds, after an attempt that failed;
  // another process may have committed it already.
  ghost predicate BeginStep(net: Network, s: Service, s': Service, raw: RawLedger) {
    && s.pending.None?
    && raw.number <= s.committed + 1 && |s.load.history| <= raw.number + 1
    && TrueDiff(net.states, raw) && Applies(s.load.cache, raw)
    && UpdateStep(s.load, s'.load, Updates(raw.objects), raw.number)
    && s' == s.(
         load := s'.load,
         pending := if CanBuild(s.load.cache, raw) then Some(Pending(raw, s.load.cache)) else None)
  }

  ghost predicate WriteAheadStep(s: Service, s': Service) {
    && Others(s'.objects, s.committed + 1) == Others(s.objects, s.committed + 1)
    && Others(s'.successor, s.committed + 1) == Others(s.successor, s.committed + 1)
    && s' == s.(objects := s'.objects, successor := s'.successor)
  }

  ghost predicate LandLateStep(net: Network, s: Service, s': Service, t: nat) {
    && net.first <= t <= s.committed
    && LandsLate(net.states, t, s.committed, s.objects, s.successor, s'.objects, s'.successor)
    && s' == s.(objects := s'.objects, successor := s'.successor)
  }

  // All rows of the ledger have landed, and the range moves on to it.
  ghost predicate CommitStep(net: Network, s: Service, s': Service, raw: RawLedger, before: CacheState) {
    && raw.number == s.committed + 1 < |net.states|
    && EarlierObjectsTrue(s.objects, net.states[raw.number], raw.number)
    && EarlierRowsTrue(s.successor, net.states[raw.number].Keys, raw.number)
    && s' == s.(
         objects := Insert(s.objects, raw.number, ObjectRows(raw.objects)),
         successor := SuccessorAfter(s.successor, before, Updated(before, Updates(raw.objects), raw.number, false), raw),
         committed := raw.number,
         pending := s'.pending)
  }

  ghost predicate FinishStep(net: Network, s: Service, s': Service) {
    && s.pending.Some? && s'.pending.None?
    && CommitStep(net, s, s', s.pending.value.raw, s.pending.value.before)
  }

  // The other process has the neighbours or a cache of its own.
  ghost predicate FollowStep(net: Network, s: Service, s': Service, raw: RawLedger, cache: CacheState) {
    && TrueDiff(net.states, raw) && WriterReady(net.states, raw, cache)
    && s'.pending == s.pending
    && CommitStep(net, s, s', raw, cache)
  }

  // Whatever committed ledger is published, the cache is updated.
  ghost predicate PublishAnyStep(net: Network, s: Service, s': Service, objs: seq<LedgerObject>, n: nat) {
    && 0 < n <= s.committed < |net.states|
    && UpdateStep(s.load, s'.load, objs, n)
    && Apply(net.states[n - 1], objs) == net.states[n]
    && s' == s.(load := s'.load)
  }

  // In a run, a ledger that the cache has passed is published only while it is still so.
  ghost predicate PublishStep(net: Network, s: Service, s': Service, objs: seq<LedgerObject>, n: nat) {
    && PublishAnyStep(net, s, s', objs, n)
    && (n < |s.load.history| ==> StillSo(objs, s.load.history[|s.load.history| - 1]))
  }

  /* Reading a page: its keys one after another, then its objects in the cache, then the others */

  predicate AllListed(r: Reading, limit: nat) {
    r.ended || |r.listed| >= limit
  }

  function LastListed(r: Reading, cursor: Key): Key {
    if r.listed == [] then cursor else r.listed[|r.listed| - 1]
  }

  function Listed(r: Reading, next: Option<Key>): Reading {
    match next
    case None => r.(ended := true)
    case Some(key) => r.(listed := r.listed + [key])
  }

  function LookedUp(r: Reading, s: Service, ledger: nat): Reading
    requires |r.looked| < |r.listed|
  {
    var hit := Cached(s.load.cache, r.listed[|r.looked|], ledger);
    r.(looked := r.looked + [if hit.Some? then hit.value else Empty])
  }

  function Fetched(r: Reading, s: Service, ledger: nat): Reading
    requires |r.blobs| < |r.looked| <= |r.listed|
  {
    var hit := r.looked[|r.blobs|];
    r.(blobs := r.blobs + [if hit != Empty then hit else DbObject(s.objects, r.listed[|r.blobs|], ledger)])
  }

  // One read of a page of `ledger` after `cursor`.
  predicate ReadStep(r: Reading, r': Reading, s: Service, cursor: Key, ledger: nat, limit: nat) {
    if !AllListed(r, limit) then
      r' == Listed(r, ReadNext(s.successor, s.load.cache, LastListed(r, cursor), ledger))
    else if |r.looked| < |r.listed| then
      r' == LookedUp(r, s, ledger)
    else
      |r.blobs| < |r.looked| == |r.listed| && r' == Fetched(r, s, ledger)
  }

  predicate Complete(r: Reading, limit: nat) {
    AllListed(r, limit) && |r.blobs| == |r.listed|
  }

  function PageRead(r: Reading): LedgerPage
    requires |r.blobs| == |r.listed|
  {
    LedgerPage(
      Present(seq(|r.listed|, i requires 0 <= i < |r.listed| => LedgerObject(r.listed[i], r.blobs[i]))),
      if |r.listed| > 0 && !r.ended then Some(r.listed[|r.listed| - 1]) else None)
  }

  ghost predicate Reads(s: Service, i: nat) {
    i < |s.load.tasks| == |s.readings| && s.load.tasks[i].Running?
  }

  ghost predicate TaskReadStep(s: Service, s': Service, i: nat, limit: nat) {
    && Reads(s, i) && |s'.readings| == |s.readings|
    && ReadStep(s.readings[i], s'.readings[i], s, s.load.tasks[i].cursor, s.load.base, limit)
    && s' == s.(readings := s.readings[i := s'.readings[i]])
  }

  ghost predicate StorePageStep(s: Service, s': Service, i: nat, limit: nat) {
    && Reads(s, i) && Complete(s.readings[i], limit)
    && StoreStep(s.load, s'.load, i, PageRead(s.readings[i]))
    && s' == s.(load := s'.load, readings := s.readings[i := NOTHING_READ])
  }

  /* Runs */

  // A process that starts over existing tables: an empty cache, and a task for each cursor picked
  // from the objects of recent ledgers.
  ghost predicate StartsOver(net: Network, s: Service, window: nat, cursors: seq<Key>) {
    && net.first + window <= s.committed < |net.states| == |net.diffs|
    && s.load.base == s.committed && s.load.history == net.states[..s.committed + 1]
    && Init(s.load, cursors)
    && Picked(cursors, RecentObjects(net.diffs, s.committed, window))
    && s.readings == seq(|s.load.tasks|, i requires 0 <= i < |s.load.tasks| => NOTHING_READ)
    && s.pending.None?
  }

  // What a finished initial download leaves: tables that serve the first ledger and a full cache.
  ghost predicate AfterDownload(net: Network, s: Service) {
    && s.committed == s.load.base == net.first < |net.states|
    && s.load.history == net.states[..net.first + 1]
    && ServedAt(net.states, s.objects, s.successor, net.first)
    && s.load.cache == CacheOf(net.states[net.first], net.first)
    && s.load.tasks == [] && s.readings == [] && s.load.remaining == 0
    && s.pending.None?
  }

  ghost predicate TablesServe(net: Network, s: Service) {
    forall t: nat {:trigger ServedAt(net.states, s.objects, s.successor, t)} | net.first <= t <= s.committed ::
      ServedAt(net.states, s.objects, s.successor, t)
  }

  // The database was filled by a download, or by processes that ran before.
  ghost predicate Start(net: Network, s: Service) {
    && Agreed(net)
    && (AfterDownload(net, s)
        || (TablesServe(net, s) && exists window, cursors :: StartsOver(net, s, window, cursors)))
  }

  ghost predicate Step(net: Network, s: Service, e: Event, s': Service, limit: nat) {
    match e
    case Begin(raw) => BeginStep(net, s, s', raw)
    case WriteAhead => WriteAheadStep(s, s')
    case LandLate(t) => LandLateStep(net, s, s', t)
    case Finish => FinishStep(net, s, s')
    case Abandon => s' == s.(pending := None)
    case Follow(raw, cache) => FollowStep(net, s, s', raw, cache)
    case Publish(objs, n) => PublishStep(net, s, s', objs, n)
    case Read(i) => TaskReadStep(s, s', i, limit)
    case Store(i) => StorePageStep(s, s', i, limit)
    case Retire(i) => RetireStep(s.load, s'.load, i) && s' == s.(load := s'.load)
    case Restart(window, cursors) =>
      StartsOver(net, s', window, cursors)
      && s'.objects == s.objects && s'.successor == s.successor && s'.committed == s.committed
  }

  ghost predicate Run(net: Network, states: seq<Service>, events: seq<Event>, limit: nat) {
    && |states| == |events| + 1
    && Start(net, states[0])
    && forall i: nat {:trigger StepAt(net, states, events, limit, i)} | i < |events| :: StepAt(net, states, events, limit, i)
  }

  ghost predicate StepAt(net: Network, states: seq<Service>, events: seq<Event>, limit: nat, i: nat)
    requires |states| == |events| + 1 && i < |events|
  {
    Step(net, states[i], events[i], states[i + 1], limit)
  }

  /* The invariant */

  ghost predicate Follows(net: Network, s: Service) {
    && |s.load.history| <= |net.states| && s.load.history == net.states[..|s.load.history|]
    && net.first <= s.load.base <= s.committed < |net.states|
    && |s.load.history| <= s.committed + 2
  }

  // Whatever has been read of a page is right for the ledger being loaded.
  ghost predicate ReadingTrue(state: State, cursor: Key, r: Reading, limit: nat) {
    && Proper(state)
    && (cursor == FIRST_KEY || cursor in state)
    && var after := KeysAfter(state.Keys, cursor);
    && |r.listed| <= limit && |r.listed| <= |after| && r.listed == after[..|r.listed|]
    && (r.ended ==> |r.listed| == |after| < limit)
    && |r.looked| <= |r.listed| && |r.blobs| <= |r.listed|
    && (forall j | 0 <= j < |r.looked| && r.looked[j] != Empty :: r.looked[j] == Lookup(state, r.listed[j]))
    && (forall j | 0 <= j < |r.blobs| :: r.blobs[j] == Lookup(state, r.listed[j]))
  }

  ghost predicate ReadingsTrue(state: State, tasks: seq<Task>, readings: seq<Reading>, limit: nat) {
    && |readings| == |tasks|
    && forall i | 0 <= i < |tasks| && tasks[i].Running? :: ReadingTrue(state, tasks[i].cursor, readings[i], limit)
  }

  ghost predicate PendingTrue(net: Network, s: Service) {
    s.pending.Some? ==>
      var raw := s.pending.value.raw;
      TrueDiff(net.states, raw) && WriterReady(net.states, raw, s.pending.value.before)
  }

  ghost predicate Inv(net: Network, s: Service, limit: nat) {
    && Agreed(net)
    && Follows(net, s)
    && CacheLoad.Inv(s.load)
    && TablesServe(net, s)
    && ReadingsTrue(net.states[s.load.base], s.load.tasks, s.readings, limit)
    && PendingTrue(net, s)
  }

  // At such a moment every read of a committed ledger, from the cache or the database, is true.
  lemma ServesNow(net: Network, s: Service, limit: nat, t: nat)
    requires Inv(net, s, limit) && net.first <= t <= s.committed
    ensures ObjectsServedBy(s.objects, s.load.cache, net.states[t], t)
    ensures SuccessorsServedBy(s.successor, s.load.cache, net.states[t].Keys, t)
  {
    assert ServedAt(net.states, s.objects, s.successor, t);
    EitherMayAnswer(s.objects, s.successor, s.load.cache, s.load.history, net.states[t], t);
  }

  /* Each step keeps it: the tables */

  // An exact cache is one that mirrors its ledger.
  lemma ExactMirrors(c: CacheState, history: seq<State>)
    requires CacheExact(c, history) && !c.disabled
    ensures Mirrors(c, history[c.latest], c.latest)
  {
    forall k | k in c.entries ensures c.entries[k].blob == history[c.latest][k] && c.entries[k].ledger <= c.latest {
      assert GoodEntry(c, history, k);
    }
  }

  lemma NextPrefix(states: seq<State>, history: seq<State>)
    requires |history| < |states| && history == states[..|history|]
    ensures history + [states[|history|]] == states[..|history| + 1]
  {
  }

  // Applying a ledger of the network leaves the cache with a prefix of its ledgers.
  lemma UpdateFollows(net: Network, s: Service, s': Service, objs: seq<LedgerObject>, n: nat)
    requires Follows(net, s) && UpdateStep(s.load, s'.load, objs, n) && 0 < n <= s.committed + 1
    requires n < |net.states| && Apply(net.states[n - 1], objs) == net.states[n]
    requires s'.committed == s.committed
    ensures Follows(net, s')
  {
    if n == |s.load.history| {
      NextPrefix(net.states, s.load.history);
    }
  }

  lemma BeginKeeps(net: Network, s: Service, s': Service, raw: RawLedger, limit: nat)
    requires Inv(net, s, limit) && BeginStep(net, s, s', raw)
    ensures Inv(net, s', limit)
  {
    BeginIsForeground(net, s, s', raw);
    ForegroundKeeps(s.load, s'.load, Updates(raw.objects), raw.number);
    UpdateFollows(net, s, s', Updates(raw.objects), raw.number);
    BeganTrue(net, s, s', raw);
  }

  lemma BeginIsForeground(net: Network, s: Service, s': Service, raw: RawLedger)
    requires Follows(net, s) && BeginStep(net, s, s', raw)
    ensures ForegroundStep(s.load, s'.load, Updates(raw.objects), raw.number)
  {
    NewestIsStillSo(net.states[raw.number - 1], Updates(raw.objects));
  }

  // Without neighbours a build goes by its own cache, which mirrors the ledger before.
  lemma BeganTrue(net: Network, s: Service, s': Service, raw: RawLedger)
    requires Follows(net, s) && CacheLoad.Inv(s.load) && BeginStep(net, s, s', raw)
    ensures PendingTrue(net, s')
  {
    if s'.pending.Some? && !raw.neighborsIncluded && NeedsCache(raw.objects) {
      ExactMirrors(s.load.cache, s.load.history);
    }
  }

  // Rows of a ledger that nobody can ask for yet disturb no other.
  lemma OthersServed(
    net: Network, objects: Table<Key, Blob>, successor: Table<Key, Key>,
    objects': Table<Key, Blob>, successor': Table<Key, Key>, ledger: nat, t: nat)
    requires Others(objects', ledger) == Others(objects, ledger)
    requires Others(successor', ledger) == Others(successor, ledger)
    requires t < ledger && ServedAt(net.states, objects, successor, t)
    ensures ServedAt(net.states, objects', successor', t)
  {
    forall k: Key ensures DbObject(objects', k, t) == Lookup(net.states[t], k) {
      OtherLookups(objects, objects', ledger, k, t);
      assert DbObject(objects, k, t) == Lookup(net.states[t], k);
    }
    forall k: Key | k == FIRST_KEY || k in net.states[t]
      ensures SelectLatest(successor', k, t) == Some(Next(net.states[t].Keys, k))
    {
      OtherLookups(successor, successor', ledger, k, t);
      assert SelectLatest(successor, k, t) == Some(Next(net.states[t].Keys, k));
    }
  }

  lemma WriteAheadKeeps(net: Network, s: Service, s': Service, limit: nat)
    requires Inv(net, s, limit) && WriteAheadStep(s, s')
    ensures Inv(net, s', limit)
  {
    forall t: nat | net.first <= t <= s'.committed ensures ServedAt(net.states, s'.objects, s'.successor, t) {
      assert ServedAt(net.states, s.objects, s.successor, t);
      OthersServed(net, s.objects, s.successor, s'.objects, s'.successor, s.committed + 1, t);
    }
  }

  lemma LandLateKeeps(net: Network, s: Service, s': Service, t: nat, limit: nat)
    requires Inv(net, s, limit) && LandLateStep(net, s, s', t)
    ensures Inv(net, s', limit)
  {
    assert ServedAt(net.states, s.objects, s.successor, t);
    forall u: nat | net.first <= u <= s'.committed ensures ServedAt(net.states, s'.objects, s'.successor, u) {
      assert ServedAt(net.states, s.objects, s.successor, u);
      LateServes(net.states, t, s.committed, s.objects, s.successor, s'.objects, s'.successor, u);
    }
  }

  // The ledger committed is served.
  lemma CommitServes(net: Network, s: Service, s': Service, raw: RawLedger, before: CacheState)
    requires Agreed(net) && TablesServe(net, s) && net.first <= s.committed
    requires CommitStep(net, s, s', raw, before)
    requires TrueDiff(net.states, raw) && WriterReady(net.states, raw, before)
    ensures ServedAt(net.states, s'.objects, s'.successor, s'.committed)
  {
    var state, state' := net.states[raw.number - 1], net.states[raw.number];
    assert ServedAt(net.states, s.objects, s.successor, s.committed);
    var ready := ReadyCache(net.states, raw, before, s.successor);
    BuildKeepsChain(s.successor, s'.successor, state, state', raw.number, raw, ready);
    BuildKeepsObjects(s.objects, state, raw);
  }

  lemma CommitKeeps(net: Network, s: Service, s': Service, raw: RawLedger, before: CacheState)
    requires Agreed(net) && TablesServe(net, s) && net.first <= s.committed
    requires CommitStep(net, s, s', raw, before)
    requires TrueDiff(net.states, raw) && WriterReady(net.states, raw, before)
    ensures TablesServe(net, s')
  {
    InsertOnly(s.objects, raw.number, ObjectRows(raw.objects));
    SuccessorOnly(s.successor, before, Updated(before, Updates(raw.objects), raw.number, false), raw);
    forall t: nat | net.first <= t <= s'.committed ensures ServedAt(net.states, s'.objects, s'.successor, t) {
      if t == s'.committed {
        CommitServes(net, s, s', raw, before);
      } else {
        assert ServedAt(net.states, s.objects, s.successor, t);
        OthersServed(net, s.objects, s.successor, s'.objects, s'.successor, raw.number, t);
      }
    }
  }

  lemma FinishKeeps(net: Network, s: Service, s': Service, limit: nat)
    requires Inv(net, s, limit) && FinishStep(net, s, s')
    ensures Inv(net, s', limit)
  {
    CommitKeeps(net, s, s', s.pending.value.raw, s.pending.value.before);
  }

  lemma FollowKeeps(net: Network, s: Service, s': Service, raw: RawLedger, cache: CacheState, limit: nat)
    requires Inv(net, s, limit) && FollowStep(net, s, s', raw, cache)
    ensures Inv(net, s', limit)
  {
    CommitKeeps(net, s, s', raw, cache);
  }

  /* Each step keeps it: the pages */

  lemma ListedKeeps(state: State, cursor: Key, r: Reading, limit: nat)
    requires ReadingTrue(state, cursor, r, limit) && !AllListed(r, limit)
    ensures LastListed(r, cursor) == FIRST_KEY || LastListed(r, cursor) in state
    ensures ReadingTrue(state, cursor, Listed(r, NextKey(state.Keys, LastListed(r, cursor))), limit)
  {
    NextInList(state.Keys, cursor, |r.listed|);
  }

  lemma LookedUpKeeps(state: State, cursor: Key, r: Reading, s: Service, ledger: nat, limit: nat)
    requires ReadingTrue(state, cursor, r, limit) && |r.looked| < |r.listed|
    requires ObjectsServedBy(s.objects, s.load.cache, state, ledger)
    ensures ReadingTrue(state, cursor, LookedUp(r, s, ledger), limit)
  {
  }

  lemma FetchedKeeps(state: State, cursor: Key, r: Reading, s: Service, ledger: nat, limit: nat)
    requires ReadingTrue(state, cursor, r, limit) && |r.blobs| < |r.looked| == |r.listed|
    requires ObjectsServedBy(s.objects, s.load.cache, state, ledger)
    ensures ReadingTrue(state, cursor, Fetched(r, s, ledger), limit)
  {
    assert DbObject(s.objects, r.listed[|r.blobs|], ledger) == Lookup(state, r.listed[|r.blobs|]);
  }

  // A read at a moment when the ledger is served keeps what has been read right.
  lemma ReadKeeps(state: State, cursor: Key, r: Reading, r': Reading, s: Service, ledger: nat, limit: nat)
    requires ReadingTrue(state, cursor, r, limit) && ReadStep(r, r', s, cursor, ledger, limit)
    requires ObjectsServedBy(s.objects, s.load.cache, state, ledger)
    requires SuccessorsServedBy(s.successor, s.load.cache, state.Keys, ledger)
    ensures ReadingTrue(state, cursor, r', limit)
  {
    if !AllListed(r, limit) {
      ListedKeeps(state, cursor, r, limit);
      var last := LastListed(r, cursor);
      assert ReadNext(s.successor, s.load.cache, last, ledger) == NextKey(state.Keys, last);
    } else if |r.looked| < |r.listed| {
      LookedUpKeeps(state, cursor, r, s, ledger, limit);
    } else {
      FetchedKeeps(state, cursor, r, s, ledger, limit);
    }
  }

  // However its reads were spread over time, a page is the page of the ledger being loaded.
  lemma ReadIsPage(state: State, cursor: Key, r: Reading, limit: nat)
    requires ReadingTrue(state, cursor, r, limit) && Complete(r, limit)
    ensures PageRead(r) == PageOf(state, cursor, limit)
  {
    assert r.listed == PageKeys(state.Keys, cursor, limit);
    assert seq(|r.listed|, i requires 0 <= i < |r.listed| => LedgerObject(r.listed[i], r.blobs[i]))
      == ObjectsAt(state, r.listed);
  }

  lemma ReadNow(
    net: Network, s: Service, pageSize: nat, cursor: Key, r: Reading, r': Reading, ledger: nat, limit: nat)
    requires Inv(net, s, pageSize) && net.first <= ledger <= s.committed
    requires ReadingTrue(net.states[ledger], cursor, r, limit) && ReadStep(r, r', s, cursor, ledger, limit)
    ensures ReadingTrue(net.states[ledger], cursor, r', limit)
  {
    ServesNow(net, s, pageSize, ledger);
    ReadKeeps(net.states[ledger], cursor, r, r', s, ledger, limit);
  }

  lemma TaskReadKeeps(net: Network, s: Service, s': Service, i: nat, limit: nat)
    requires Inv(net, s, limit) && TaskReadStep(s, s', i, limit)
    ensures Inv(net, s', limit)
  {
    ReadNow(net, s, limit, s.load.tasks[i].cursor, s.readings[i], s'.readings[i], s.load.base, limit);
  }

  lemma StoreKeeps(net: Network, s: Service, s': Service, i: nat, limit: nat)
    requires Inv(net, s, limit) && StorePageStep(s, s', i, limit) && limit > 0
    ensures Inv(net, s', limit)
  {
    ReadIsPage(net.states[s.load.base], s.load.tasks[i].cursor, s.readings[i], limit);
    PageKeeps(s.load, s'.load, i, limit);
    StoredReadings(net.states[s.load.base], s, s', i, limit);
  }

  // A task that goes on does so from a live key.
  lemma StoredReadings(state: State, s: Service, s': Service, i: nat, limit: nat)
    requires StorePageStep(s, s', i, limit) && limit > 0
    requires ReadingsTrue(state, s.load.tasks, s.readings, limit)
    ensures ReadingsTrue(state, s'.load.tasks, s'.readings, limit)
  {
    ReadIsPage(state, s.load.tasks[i].cursor, s.readings[i], limit);
    PageCovers(state, s.load.tasks[i].cursor, limit);
  }

  lemma RetireStepKeeps(net: Network, s: Service, s': Service, i: nat, limit: nat)
    requires Inv(net, s, limit) && RetireStep(s.load, s'.load, i) && s' == s.(load := s'.load)
    ensures Inv(net, s', limit)
  {
    RetireKeeps(s.load, s'.load, i);
  }

  lemma StartsOverKeeps(net: Network, s: Service, window: nat, cursors: seq<Key>, limit: nat)
    requires Agreed(net) && TablesServe(net, s) && StartsOver(net, s, window, cursors)
    ensures Inv(net, s, limit)
  {
    InitKeeps(s.load, cursors);
    StartsReading(net, s, window, cursors, limit);
  }

  // A cursor picked from recent ledgers is live in the one being loaded.
  lemma StartsReading(net: Network, s: Service, window: nat, cursors: seq<Key>, limit: nat)
    requires Agreed(net) && StartsOver(net, s, window, cursors)
    ensures ReadingsTrue(net.states[s.load.base], s.load.tasks, s.readings, limit)
  {
    forall i | 0 <= i < |s.load.tasks|
      ensures ReadingTrue(net.states[s.load.base], s.load.tasks[i].cursor, s.readings[i], limit)
    {
      if i > 0 {
        assert cursors[i - 1] in cursors;
        CursorsAreLive(net.states, net.diffs, s.committed, window, cursors[i - 1]);
      }
    }
  }

  // A finished initial download is such a start.
  lemma DownloadStarts(net: Network, s: Service, b: Backend, source: State, markers: seq<Key>)
    requires Agreed(net) && net.states[net.first] == InitialRanges.Downloaded(source, markers)
    requires InitialLoad.Serves(b, net.states[net.first], net.first)
    requires s == Service(
      Load(b.cache.State(), net.states[..net.first + 1], net.first, [], 0, {}, {}),
      [], b.objects, b.successor, net.first, None)
    ensures Start(net, s)
  {
    InitialLoad.ObjectsAreServed(net.states[net.first], b.objects, net.first);
  }

  lemma StartKeeps(net: Network, s: Service, limit: nat)
    requires Start(net, s)
    ensures Inv(net, s, limit)
  {
    if AfterDownload(net, s) {
      DownloadKeeps(net, s, limit);
    } else {
      var window, cursors :| StartsOver(net, s, window, cursors);
      StartsOverKeeps(net, s, window, cursors, limit);
    }
  }

  lemma PublishKeeps(net: Network, s: Service, s': Service, objs: seq<LedgerObject>, n: nat, limit: nat)
    requires Inv(net, s, limit) && PublishStep(net, s, s', objs, n)
    ensures Inv(net, s', limit)
  {
    ForegroundKeeps(s.load, s'.load, objs, n);
    UpdateFollows(net, s, s', objs, n);
  }

  // The condition is exact: publishing any other ledger that the cache has passed breaks the cache.
  lemma PublishKeepsIffStillSo(
    net: Network, s: Service, s': Service, objs: seq<LedgerObject>, n: nat, limit: nat)
    requires Inv(net, s, limit) && PublishAnyStep(net, s, s', objs, n) && n < |s.load.history|
    ensures Inv(net, s', limit) <==> StillSo(objs, s.load.history[|s.load.history| - 1])
  {
    AgainKeepsIffStillSo(s.load, s'.load, objs, n);
    UpdateFollows(net, s, s', objs, n);
  }

  lemma DownloadKeeps(net: Network, s: Service, limit: nat)
    requires Agreed(net) && AfterDownload(net, s)
    ensures Inv(net, s, limit)
  {
    forall t: nat | net.first <= t <= s.committed ensures ServedAt(net.states, s.objects, s.successor, t) {
      assert t == net.first;
    }
  }

  lemma StepKeeps(net: Network, s: Service, e: Event, s': Service, limit: nat)
    requires Inv(net, s, limit) && Step(net, s, e, s', limit) && limit > 0
    ensures Inv(net, s', limit)
  {
    match e
    case Begin(raw) => BeginKeeps(net, s, s', raw, limit);
    case WriteAhead => WriteAheadKeeps(net, s, s', limit);
    case LandLate(t) => LandLateKeeps(net, s, s', t, limit);
    case Finish => FinishKeeps(net, s, s', limit);
    case Abandon =>
    case Follow(raw, cache) => FollowKeeps(net, s, s', raw, cache, limit);
    case Publish(objs, n) => PublishKeeps(net, s, s', objs, n, limit);
    case Read(i) => TaskReadKeeps(net, s, s', i, limit);
    case Store(i) => StoreKeeps(net, s, s', i, limit);
    case Retire(i) => RetireStepKeeps(net, s, s', i, limit);
    case Restart(window, cursors) => StartsOverKeeps(net, s', window, cursors, limit);
  }

  lemma {:induction false} RunKeeps(
    net: Network, states: seq<Service>, events: seq<Event>, limit: nat, n: nat)
    requires Run(net, states, events, limit) && limit > 0 && n < |states|
    ensures Inv(net, states[n], limit)
  {
    if n == 0 {
      StartKeeps(net, states[0], limit);
    } else {
      RunKeeps(net, states, events, limit, n - 1);
      StepAtKeeps(net, states, events, limit, n);
    }
  }

  lemma StepAtKeeps(net: Network, states: seq<Service>, events: seq<Event>, limit: nat, n: nat)
    requires Run(net, states, events, limit) && 0 < n < |states| && limit > 0
    requires Inv(net, states[n - 1], limit)
    ensures Inv(net, states[n], limit)
  {
    assert StepAt(net, states, events, limit, n - 1);
    StepKeeps(net, states[n - 1], events[n - 1], states[n], limit);
  }

  lemma StepOfRun(net: Network, states: seq<Service>, events: seq<Event>, limit: nat, n: nat)
    requires Run(net, states, events, limit) && limit > 0 && 0 < n < |states|
    ensures Inv(net, states[n - 1], limit) && Step(net, states[n - 1], events[n - 1], states[n], limit)
  {
    RunKeeps(net, states, events, limit, n - 1);
    assert StepAt(net, states, events, limit, n - 1);
  }

  /* What it is worth */

  // At every moment of every run, whatever the cache has loaded and whatever is being written,
  // objects and successors of every committed ledger are read as that ledger has them.
  lemma ReadsServeHistory(
    net: Network, states: seq<Service>, events: seq<Event>, limit: nat, n: nat, t: nat, b: Backend)
    requires Run(net, states, events, limit) && limit > 0 && n < |states|
    requires net.first <= t <= states[n].committed
    requires b.objects == states[n].objects && b.successor == states[n].successor
    requires b.cache.State() == states[n].load.cache
    ensures t < |net.states|
    ensures b.ServesObjects(net.states[t], t)
    ensures b.ServesSuccessors(net.states[t].Keys, t)
  {
    RunKeeps(net, states, events, limit, n);
    ServesNow(net, states[n], limit, t);
  }

  // A request for a page whose reads happen at any moments, each while its ledger is committed.
  ghost predicate ReadAt(
    states: seq<Service>, moments: seq<nat>, readings: seq<Reading>, cursor: Key, ledger: nat, limit: nat, j: nat)
    requires |readings| == |moments| + 1 && j < |moments|
  {
    && moments[j] < |states| && ledger <= states[moments[j]].committed
    && ReadStep(readings[j], readings[j + 1], states[moments[j]], cursor, ledger, limit)
  }

  lemma {:induction false} ReadingsStayTrue(
    net: Network, states: seq<Service>, events: seq<Event>, pageSize: nat,
    moments: seq<nat>, readings: seq<Reading>, cursor: Key, t: nat, limit: nat, n: nat)
    requires Run(net, states, events, pageSize) && pageSize > 0
    requires net.first <= t < |net.states| && (cursor == FIRST_KEY || cursor in net.states[t])
    requires n <= |moments| && |readings| == |moments| + 1 && readings[0] == NOTHING_READ
    requires forall j: nat {:trigger ReadAt(states, moments, readings, cursor, t, limit, j)} | j < |moments| ::
      ReadAt(states, moments, readings, cursor, t, limit, j)
    ensures ReadingTrue(net.states[t], cursor, readings[n], limit)
  {
    if n == 0 {
      RunKeeps(net, states, events, pageSize, 0);
      NothingReadYet(net.states[t], cursor, limit);
    } else {
      ReadingsStayTrue(net, states, events, pageSize, moments, readings, cursor, t, limit, n - 1);
      assert ReadAt(states, moments, readings, cursor, t, limit, n - 1);
      ReadAtMoment(net, states, events, pageSize, moments[n - 1], cursor, readings[n - 1], readings[n], t, limit);
    }
  }

  lemma ReadAtMoment(
    net: Network, states: seq<Service>, events: seq<Event>, pageSize: nat, m: nat,
    cursor: Key, r: Reading, r': Reading, t: nat, limit: nat)
    requires Run(net, states, events, pageSize) && pageSize > 0 && m < |states|
    requires net.first <= t <= states[m].committed && t < |net.states|
    requires ReadingTrue(net.states[t], cursor, r, limit) && ReadStep(r, r', states[m], cursor, t, limit)
    ensures ReadingTrue(net.states[t], cursor, r', limit)
  {
    RunKeeps(net, states, events, pageSize, m);
    ReadNow(net, states[m], pageSize, cursor, r, r', t, limit);
  }

  lemma NothingReadYet(state: State, cursor: Key, limit: nat)
    requires Proper(state) && (cursor == FIRST_KEY || cursor in state)
    ensures ReadingTrue(state, cursor, NOTHING_READ, limit)
  {
  }

  // It returns the page of that ledger, whatever is built, loaded or restarted in between.
  lemma PagesServeHistory(
    net: Network, states: seq<Service>, events: seq<Event>, pageSize: nat,
    moments: seq<nat>, readings: seq<Reading>, cursor: Key, t: nat, limit: nat)
    requires Run(net, states, events, pageSize) && pageSize > 0
    requires net.first <= t < |net.states| && (cursor == FIRST_KEY || cursor in net.states[t])
    requires |readings| == |moments| + 1 && readings[0] == NOTHING_READ && Complete(readings[|moments|], limit)
    requires forall j: nat {:trigger ReadAt(states, moments, readings, cursor, t, limit, j)} | j < |moments| ::
      ReadAt(states, moments, readings, cursor, t, limit, j)
    ensures LAST_KEY !in net.states[t]
    ensures PageRead(readings[|moments|]) == PageOf(net.states[t], cursor, limit)
  {
    ReadingsStayTrue(net, states, events, pageSize, moments, readings, cursor, t, limit, |moments|);
    ReadIsPage(net.states[t], cursor, readings[|moments|], limit);
  }

  // The cache is full exactly when every task is done, and is then, object for object and with
  // true neighbours, the newest ledger it was given: never older than the one loaded.
  lemma FullCacheIsLatestLedger(net: Network, states: seq<Service>, events: seq<Event>, limit: nat, n: nat)
    requires Run(net, states, events, limit) && limit > 0 && n < |states|
    ensures var load := states[n].load;
      && 0 < |load.history| <= |net.states| && load.history == net.states[..|load.history|]
      && (load.cache.full <==> forall i | 0 <= i < |load.tasks| :: load.tasks[i] == Done)
      && (load.cache.full ==> MirrorsLatest(load.cache, load.history))
  {
    RunKeeps(net, states, events, limit, n);
    FullCacheMirrors(states[n].load);
  }
}
