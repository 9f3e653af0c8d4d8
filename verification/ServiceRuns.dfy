// A run of a server, from starting over to building a ledger by its own cache.
module ServiceRuns {
  import opened Wrappers
  import opened Tables
  import opened Ledger
  import opened SimpleCaches
  import opened Pages
  import opened Backends
  import opened CacheLoad
  import opened BuildLedger
  import opened Refinement
  import opened Services

  const BLOB := Data(Other([]))
  const FIVE := LedgerObject(5, BLOB)
  const SEVEN := LedgerObject(7, BLOB)

  // Ledger 1 has one key, and ledger 2 adds another.
  const SMALL := Network([map[], map[5 := BLOB], map[5 := BLOB, 7 := BLOB]], [[], [FIVE], [SEVEN]], 1)
  const PAGE_SIZE: nat := 2

  const OBJECTS: Table<Key, Blob> := map[(5, 1) := BLOB]
  const SUCCESSOR: Table<Key, Key> := map[(FIRST_KEY, 1) := 5, (5, 1) := LAST_KEY]

  lemma SmallEvolves()
    ensures Agreed(SMALL)
  {
    assert [FIVE][..0] == [] && [SEVEN][..0] == [];
    assert Apply(SMALL.states[0], [FIVE]) == SMALL.states[1];
    assert Apply(SMALL.states[1], [SEVEN]) == SMALL.states[2];
  }

  // The process starts over at ledger 1, reads its one page, and is ready to build.
  const STARTED := Service(
    Load(EMPTY_CACHE, SMALL.states[..2], 1, [Running(FIRST_KEY, None)], 1, {}, {}),
    [NOTHING_READ], OBJECTS, SUCCESSOR, 1, None)

  function Having(r: Reading): Service {
    STARTED.(readings := [r])
  }

  const LISTED := Reading([5], false, [], [])
  const ENDED := Reading([5], true, [], [])
  const LOOKED_UP := Reading([5], true, [Empty], [])
  const FETCHED := Reading([5], true, [Empty], [BLOB])

  const LOADED := Load(
    Updated(EMPTY_CACHE, [FIVE], 1, true), SMALL.states[..2], 1, [Retiring], 1, {}, {5})
  const STORED := STARTED.(load := LOADED)
  const FULL := STARTED.(load := LOADED.(cache := Filled(LOADED.cache), tasks := [Done], remaining := 0))

  // Without neighbours.
  const NEXT_LEDGER := RawLedger(2, false, [RawObject(7, BLOB, CREATED, None, None)], [])
  const BEGUN := FULL.(
    load := FULL.load.(
      cache := Updated(FULL.load.cache, [SEVEN], 2, false),
      history := SMALL.states[..2] + [Apply(SMALL.states[1], [SEVEN])],
      touched := {7}),
    pending := Some(Pending(NEXT_LEDGER, FULL.load.cache)))
  const FINISHED := BEGUN.(
    objects := Insert(OBJECTS, 2, ObjectRows(NEXT_LEDGER.objects)),
    successor := SuccessorAfter(
      SUCCESSOR, FULL.load.cache, Updated(FULL.load.cache, Updates(NEXT_LEDGER.objects), 2, false), NEXT_LEDGER),
    committed := 2,
    pending := None)

  lemma NextOfSmall()
    ensures Next({5}, FIRST_KEY) == 5 && Next({5}, 5) == LAST_KEY
  {
    assert 5 in {5};
  }

  lemma SmallStarts()
    ensures Start(SMALL, STARTED)
  {
    SmallEvolves();
    NextOfSmall();
    assert SMALL.states[1].Keys == {5};
    forall k: Key ensures DbObject(OBJECTS, k, 1) == Lookup(SMALL.states[1], k) {
      assert SelectLatest(OBJECTS, k, 0) == None;
    }
    forall t: nat | SMALL.first <= t <= STARTED.committed ensures ServedAt(SMALL.states, OBJECTS, SUCCESSOR, t) {
      assert t == 1;
    }
    assert TasksFor([]) == STARTED.load.tasks;
    assert StartsOver(SMALL, STARTED, 0, []);
  }

  lemma ListsFive()
    ensures Step(SMALL, STARTED, Read(0), Having(LISTED), PAGE_SIZE)
    ensures Step(SMALL, Having(LISTED), Read(0), Having(ENDED), PAGE_SIZE)
  {
    assert ReadNext(SUCCESSOR, EMPTY_CACHE, FIRST_KEY, 1) == Some(5);
    assert ReadNext(SUCCESSOR, EMPTY_CACHE, 5, 1) == None;
    assert [] + [5 as Key] == [5];
  }

  lemma FetchesFive()
    ensures Step(SMALL, Having(ENDED), Read(0), Having(LOOKED_UP), PAGE_SIZE)
    ensures Step(SMALL, Having(LOOKED_UP), Read(0), Having(FETCHED), PAGE_SIZE)
  {
    assert DbObject(OBJECTS, 5, 1) == BLOB;
  }

  lemma StoresFive()
    ensures Step(SMALL, Having(FETCHED), Store(0), STORED, PAGE_SIZE)
  {
    var objs := seq(1, i requires 0 <= i < 1 => LedgerObject(FETCHED.listed[i], FETCHED.blobs[i]));
    assert objs == [FIVE];
    assert [FIVE][..0] == [];
    assert Present([FIVE]) == [FIVE];
    assert PageRead(FETCHED).objects == [FIVE];
  }

  lemma RetiresOnly()
    ensures Step(SMALL, STORED, Retire(0), FULL, PAGE_SIZE)
  {
  }

  lemma FullCache()
    ensures FULL.load.cache == CacheState(map[5 := Entry(1, BLOB)], 1, true, false, {})
  {
    var c := EMPTY_CACHE.(latest := 1);
    assert [FIVE][..0] == [];
    assert StoreAll(c, [], 1, true) == c;
    assert StoreAll(c, [FIVE], 1, true) == StoreOne(c, FIVE, 1, true);
  }

  lemma BeginsTwo()
    ensures Step(SMALL, FULL, Begin(NEXT_LEDGER), BEGUN, PAGE_SIZE)
    ensures BEGUN.load.cache.full && BEGUN.load.cache.latest == 2
  {
    SmallEvolves();
    FullCache();
    assert Updates(NEXT_LEDGER.objects) == [SEVEN];
    StoreAllRest(FULL.load.cache.(latest := 2), [SEVEN], 2, false);
    assert (set o | o in [SEVEN] :: o.key) == {7};
  }

  lemma FinishesTwo()
    ensures Step(SMALL, BEGUN, Finish, FINISHED, PAGE_SIZE)
  {
  }

  lemma RunOne(net: Network, states: seq<Service>, events: seq<Event>, limit: nat, e: Event, s': Service)
    requires Run(net, states, events, limit) && Step(net, states[|events|], e, s', limit)
    ensures Run(net, states + [s'], events + [e], limit)
  {
    var states', events' := states + [s'], events + [e];
    forall i: nat | i < |events'| ensures StepAt(net, states', events', limit, i) {
      if i < |events| {
        assert StepAt(net, states, events, limit, i);
      }
    }
  }

  lemma RunTwo(
    net: Network, states: seq<Service>, events: seq<Event>, limit: nat, e: Event, s: Service, f: Event, s': Service)
    requires Run(net, states, events, limit) && Step(net, states[|events|], e, s, limit) && Step(net, s, f, s', limit)
    ensures Run(net, states + [s] + [s'], events + [e] + [f], limit)
  {
    RunOne(net, states, events, limit, e, s);
    RunOne(net, states + [s], events + [e], limit, f, s');
  }

  // There is a run that ends with the cache full and ledger 2 built from it and committed.
  lemma SomeRunBuilds() returns (states: seq<Service>, events: seq<Event>)
    ensures Run(SMALL, states, events, PAGE_SIZE)
    ensures var last := states[|events|];
      last.committed == 2 && last.load.cache.full && last.load.cache.latest == 2
  {
    states, events := [STARTED], [];
    SmallStarts();
    ListsFive();
    RunTwo(SMALL, states, events, PAGE_SIZE, Read(0), Having(LISTED), Read(0), Having(ENDED));
    states, events := states + [Having(LISTED)] + [Having(ENDED)], events + [Read(0)] + [Read(0)];
    FetchesFive();
    RunTwo(SMALL, states, events, PAGE_SIZE, Read(0), Having(LOOKED_UP), Read(0), Having(FETCHED));
    states, events := states + [Having(LOOKED_UP)] + [Having(FETCHED)], events + [Read(0)] + [Read(0)];
    StoresFive();
    RetiresOnly();
    RunTwo(SMALL, states, events, PAGE_SIZE, Store(0), STORED, Retire(0), FULL);
    states, events := states + [STORED] + [FULL], events + [Store(0)] + [Retire(0)];
    BeginsTwo();
    FinishesTwo();
    RunTwo(SMALL, states, events, PAGE_SIZE, Begin(NEXT_LEDGER), BEGUN, Finish, FINISHED);
    states, events := states + [BEGUN] + [FINISHED], events + [Begin(NEXT_LEDGER)] + [Finish];
  }

  /* With neighbours, while the cache is still loading */

  const NEIGHBORED := RawLedger(2, true, [RawObject(7, BLOB, CREATED, Some(5), None)], [])
  const BEGUN_EARLY := STARTED.(
    load := STARTED.load.(
      cache := Updated(EMPTY_CACHE, [SEVEN], 2, false),
      history := SMALL.states[..2] + [Apply(SMALL.states[1], [SEVEN])],
      touched := {7}),
    pending := Some(Pending(NEIGHBORED, EMPTY_CACHE)))
  const FINISHED_EARLY := BEGUN_EARLY.(
    objects := Insert(OBJECTS, 2, ObjectRows(NEIGHBORED.objects)),
    successor := SuccessorAfter(
      SUCCESSOR, EMPTY_CACHE, Updated(EMPTY_CACHE, Updates(NEIGHBORED.objects), 2, false), NEIGHBORED),
    committed := 2,
    pending := None)

  lemma BeginsWithNeighbors()
    ensures Step(SMALL, STARTED, Begin(NEIGHBORED), BEGUN_EARLY, PAGE_SIZE)
    ensures !BEGUN_EARLY.load.cache.full
  {
    SmallEvolves();
    assert Updates(NEIGHBORED.objects) == [SEVEN];
    StoreAllRest(EMPTY_CACHE.(latest := 2), [SEVEN], 2, false);
    assert (set o | o in [SEVEN] :: o.key) == {7};
    var keys := SMALL.states[2].Keys;
    assert keys == {5, 7};
    assert Prev(keys, 7) == 5 && Next(keys, 7) == LAST_KEY by {
      assert 5 in keys;
    }
  }

  lemma FinishesEarly()
    ensures Step(SMALL, BEGUN_EARLY, Finish, FINISHED_EARLY, PAGE_SIZE)
    ensures DbSuccessor(FINISHED_EARLY.successor, 5, 2) == Some(7)
  {
    var objs := NEIGHBORED.objects;
    assert objs[..0] == [];
    assert NeighborEdges(objs) == [Row(5, 7), Row(7, LAST_KEY)];
    var rows := BookEdges(NEIGHBORED.books) + NeighborEdges(objs);
    assert rows == [Row(5, 7), Row(7, LAST_KEY)];
    assert rows[..1] == [Row(5, 7)] && rows[..1][..0] == [];
    assert Insert(SUCCESSOR, 2, rows[..1]) == SUCCESSOR[(5, 2) := 7];
  }

  // There is a run that builds ledger 2 from neighbours and commits it while no page has been read.
  lemma SomeRunBuildsWithNeighbors() returns (states: seq<Service>, events: seq<Event>)
    ensures Run(SMALL, states, events, PAGE_SIZE)
    ensures var last := states[|events|];
      last.committed == 2 && !last.load.cache.full && DbSuccessor(last.successor, 5, 2) == Some(7)
  {
    states, events := [STARTED], [];
    SmallStarts();
    BeginsWithNeighbors();
    FinishesEarly();
    RunTwo(SMALL, states, events, PAGE_SIZE, Begin(NEIGHBORED), BEGUN_EARLY, Finish, FINISHED_EARLY);
    states, events := states + [BEGUN_EARLY] + [FINISHED_EARLY], events + [Begin(NEIGHBORED)] + [Finish];
  }
}
