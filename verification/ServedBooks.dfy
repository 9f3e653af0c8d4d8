// The records of order books over a server's whole life, and the offers that requests then get.
module ServedBooks {
  import opened Wrappers
  import opened Tables
  import opened Ledger
  import opened Pages
  import opened Sequences
  import opened SimpleCaches
  import opened Directories
  import opened Backends
  import opened BookOffers
  import opened BuildLedger
  import opened Successors
  import opened BookIndex
  import opened LateRows
  import opened Services

  // The ledger committed is built rightly as far as the book goes, by its own account; ledger
  // `from` is the first whose build notices the book, unless its record was right to begin with.
  ghost predicate CommitsBook(net: Network, s: Service, raw: RawLedger, c: CacheState, book: Key, from: nat) {
    && HonestFor(net.states, s.successor, raw, c, book)
    && (raw.number == from ==> Noticed(raw, c, book))
  }

  ghost predicate HonestFor(states: seq<State>, table: Table<Key, Key>, raw: RawLedger, c: CacheState, book: Key) {
    && IsBase(book) && 0 < raw.number < |states|
    && PureBook(states[raw.number - 1], book) && PureBook(states[raw.number], book)
    && (if raw.neighborsIncluded
        then HonestBook(raw, states[raw.number - 1].Keys, states[raw.number].Keys, book)
        else CacheKnows(c, raw))
    && ((book, raw.number) in table ==> RightRecord(table[(book, raw.number)], states[raw.number].Keys, book))
  }

  // A record that lands late is right for its ledger; before `from` none does.
  ghost predicate LandsBook(net: Network, s: Service, s': Service, t: nat, book: Key, from: nat) {
    && t < |net.states|
    && ((book, t) in s'.successor ==>
          if from <= t then RightRecord(s'.successor[(book, t)], net.states[t].Keys, book)
          else (book, t) in s.successor && s.successor[(book, t)] == s'.successor[(book, t)])
  }

  ghost predicate BookStep(net: Network, s: Service, e: Event, s': Service, book: Key, from: nat) {
    match e
    case Finish => s.pending.Some? && CommitsBook(net, s, s.pending.value.raw, s.pending.value.before, book, from)
    case Follow(raw, cache) => CommitsBook(net, s, raw, cache, book, from)
    case LandLate(t) => LandsBook(net, s, s', t, book, from)
    case _ => true
  }

  // The book's record is right at every committed ledger since `from`.
  ghost predicate BookServed(net: Network, s: Service, book: Key, from: nat) {
    forall t: nat {:trigger DbSuccessor(s.successor, book, t)} | from <= t <= s.committed < |net.states| ::
      BookIndexed(DbSuccessor(s.successor, book, t), net.states[t].Keys, book)
  }

  // A record right for two ledgers may be replaced by any that is right for the first.
  lemma RightForBoth(record: Option<Key>, value: Key, a: set<Key>, b: set<Key>, book: Key)
    requires IsBase(book) && BookIndexed(record, a, book) && BookIndexed(record, b, book)
    requires RightRecord(value, a, book)
    ensures BookIndexed(if value == LAST_KEY then None else Some(value), b, book)
  {
  }

  // Such a build is one by a cache of the ledger before.
  lemma ReadyBuildsBook(
    states: seq<State>, table: Table<Key, Key>, raw: RawLedger, c: CacheState, book: Key) returns (ready: CacheState)
    requires TrueDiff(states, raw) && WriterReady(states, raw, c) && Proper(states[raw.number - 1])
    requires EarlierRowsTrue(table, states[raw.number].Keys, raw.number) && HonestFor(states, table, raw, c, book)
    ensures BuildsBook(
      table, SuccessorAfter(table, c, Updated(c, Updates(raw.objects), raw.number, false), raw),
      states[raw.number - 1], states[raw.number], raw.number, raw, ready, book)
    ensures Noticed(raw, c, book) ==> Noticed(raw, ready, book)
  {
    ready := ReadyCache(states, raw, c, table);
    if !raw.neighborsIncluded && !NeedsCache(raw.objects) {
      QuietRows(raw, c);
    }
  }

  // The record of the ledger committed.
  lemma CommitRightsBook(
    net: Network, s: Service, s': Service, raw: RawLedger, c: CacheState, book: Key, from: nat)
    requires CommitStep(net, s, s', raw, c) && TrueDiff(net.states, raw) && WriterReady(net.states, raw, c)
    requires Proper(net.states[s.committed]) && CommitsBook(net, s, raw, c, book, from) && from <= raw.number
    requires from < raw.number ==>
      BookIndexed(DbSuccessor(s.successor, book, s.committed), net.states[s.committed].Keys, book)
    ensures BookIndexed(DbSuccessor(s'.successor, book, raw.number), net.states[raw.number].Keys, book)
  {
    var ready := ReadyBuildsBook(net.states, s.successor, raw, c, book);
    BuildKeepsBooks(
      s.successor, s'.successor, net.states[s.committed], net.states[raw.number], raw.number, raw, ready, book);
  }

  lemma CommitKeepsOlderRecord(
    net: Network, s: Service, s': Service, raw: RawLedger, c: CacheState, book: Key, t: nat)
    requires CommitStep(net, s, s', raw, c) && t <= s.committed
    ensures DbSuccessor(s'.successor, book, t) == DbSuccessor(s.successor, book, t)
  {
    SuccessorOnly(s.successor, c, Updated(c, Updates(raw.objects), raw.number, false), raw);
    OtherLookups(s.successor, s'.successor, raw.number, book, t);
  }

  lemma CommitKeepsBook(
    net: Network, s: Service, s': Service, raw: RawLedger, c: CacheState, book: Key, from: nat)
    requires Agreed(net) && net.first <= s.committed && CommitStep(net, s, s', raw, c)
    requires TrueDiff(net.states, raw) && WriterReady(net.states, raw, c)
    requires CommitsBook(net, s, raw, c, book, from) && BookServed(net, s, book, from)
    ensures BookServed(net, s', book, from)
  {
    forall t: nat | from <= t <= s'.committed
      ensures BookIndexed(DbSuccessor(s'.successor, book, t), net.states[t].Keys, book)
    {
      if t < raw.number {
        CommitKeepsOlderRecord(net, s, s', raw, c, book, t);
        assert BookIndexed(DbSuccessor(s.successor, book, t), net.states[t].Keys, book);
      } else {
        CommitRightsBook(net, s, s', raw, c, book, from);
      }
    }
  }

  lemma WriteAheadKeepsBook(net: Network, s: Service, s': Service, book: Key, from: nat)
    requires WriteAheadStep(s, s') && BookServed(net, s, book, from)
    ensures BookServed(net, s', book, from)
  {
    forall t: nat | from <= t <= s'.committed < |net.states|
      ensures BookIndexed(DbSuccessor(s'.successor, book, t), net.states[t].Keys, book)
    {
      OtherLookups(s.successor, s'.successor, s.committed + 1, book, t);
      assert BookIndexed(DbSuccessor(s.successor, book, t), net.states[t].Keys, book);
    }
  }

  lemma LandLateKeepsBook(net: Network, s: Service, s': Service, t: nat, book: Key, from: nat)
    requires IsBase(book) && LandLateStep(net, s, s', t) && LandsBook(net, s, s', t, book, from)
    requires BookServed(net, s, book, from)
    ensures BookServed(net, s', book, from)
  {
    forall u: nat | from <= u <= s'.committed < |net.states|
      ensures BookIndexed(DbSuccessor(s'.successor, book, u), net.states[u].Keys, book)
    {
      LateLookup(s.successor, s'.successor, t, book, u);
      var record := DbSuccessor(s.successor, book, u);
      assert BookIndexed(record, net.states[u].Keys, book);
      if
        && from <= t <= u
        && (book, t) in s'.successor
        && SelectLatest(s'.successor, book, u) != SelectLatest(s.successor, book, u)
      {
        assert BookIndexed(DbSuccessor(s.successor, book, t), net.states[t].Keys, book);
        RightForBoth(record, s'.successor[(book, t)], net.states[t].Keys, net.states[u].Keys, book);
      }
    }
  }

  lemma StepKeepsBook(
    net: Network, s: Service, e: Event, s': Service, limit: nat, book: Key, from: nat)
    requires IsBase(book) && Inv(net, s, limit) && Step(net, s, e, s', limit)
    requires BookStep(net, s, e, s', book, from) && BookServed(net, s, book, from)
    ensures BookServed(net, s', book, from)
  {
    match e
    case Finish => CommitKeepsBook(net, s, s', s.pending.value.raw, s.pending.value.before, book, from);
    case Follow(raw, cache) => CommitKeepsBook(net, s, s', raw, cache, book, from);
    case WriteAhead => WriteAheadKeepsBook(net, s, s', book, from);
    case LandLate(t) => LandLateKeepsBook(net, s, s', t, book, from);
    case _ =>
  }

  // A run in which the book is built rightly.
  ghost predicate ServedRun(
    net: Network, states: seq<Service>, events: seq<Event>, limit: nat, book: Key, from: nat)
  {
    && IsBase(book) && Run(net, states, events, limit) && BookServed(net, states[0], book, from)
    && forall i: nat {:trigger BookStepAt(net, states, events, book, from, i)} | i < |events| ::
         BookStepAt(net, states, events, book, from, i)
  }

  ghost predicate BookStepAt(
    net: Network, states: seq<Service>, events: seq<Event>, book: Key, from: nat, i: nat)
    requires |states| == |events| + 1 && i < |events|
  {
    BookStep(net, states[i], events[i], states[i + 1], book, from)
  }

  lemma StepAtKeepsBook(
    net: Network, states: seq<Service>, events: seq<Event>, limit: nat, book: Key, from: nat, n: nat)
    requires ServedRun(net, states, events, limit, book, from) && limit > 0 && 0 < n < |states|
    requires BookServed(net, states[n - 1], book, from)
    ensures BookServed(net, states[n], book, from)
  {
    StepOfRun(net, states, events, limit, n);
    assert BookStepAt(net, states, events, book, from, n - 1);
    StepKeepsBook(net, states[n - 1], events[n - 1], states[n], limit, book, from);
  }

  // At every moment of every run the book's record is right at every committed ledger since it was
  // right, or since a build noticed the book.
  lemma {:induction false} BookServesHistory(
    net: Network, states: seq<Service>, events: seq<Event>, limit: nat, book: Key, from: nat, n: nat)
    requires ServedRun(net, states, events, limit, book, from) && limit > 0 && n < |states|
    ensures BookServed(net, states[n], book, from)
  {
    if n > 0 {
      BookServesHistory(net, states, events, limit, book, from, n - 1);
      StepAtKeepsBook(net, states, events, limit, book, from, n);
    }
  }

  // So a request for its offers gets the first of them, best quality first, at every such ledger.
  method FetchServedOffers(
    b: Backend, book: Key, ledger: nat, limit: nat, hash: PageHash,
    ghost net: Network, ghost states: seq<Service>, ghost events: seq<Event>, ghost pageSize: nat,
    ghost from: nat, ghost n: nat, ghost chains: map<Key, seq<nat>>)
    returns (offers: seq<LedgerObject>)
    requires ServedRun(net, states, events, pageSize, book, from) && pageSize > 0 && n < |states|
    requires net.first <= ledger <= states[n].committed && from <= ledger
    requires b.objects == states[n].objects && b.successor == states[n].successor
    requires b.cache.State() == states[n].load.cache
    requires ledger < |net.states| && BookChains(net.states[ledger], hash, book, chains)
    ensures LAST_KEY !in net.states[ledger]
    ensures var dirs := DirsAfter(net.states[ledger].Keys, book, book + QUALITY_SPAN);
      && (forall d | d in dirs :: d in chains)
      && offers == ObjectsAt(net.states[ledger], Take(OffersOf(net.states[ledger], hash, chains, dirs), limit))
  {
    ReadsServeHistory(net, states, events, pageSize, n, ledger, b);
    BookServesHistory(net, states, events, pageSize, book, from, n);
    RunKeeps(net, states, events, pageSize, n);
    assert BookIndexed(DbSuccessor(b.successor, book, ledger), net.states[ledger].Keys, book);
    offers := FetchBookOffers(b, book, ledger, limit, hash, net.states[ledger], chains);
  }
}
