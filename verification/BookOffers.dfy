// Listing an order book's offers, best quality first
// (src/backend/BackendInterface.cpp, fetchBookOffers).
module BookOffers {
  import opened Wrappers
  import opened Sequences
  import opened Ledger
  import opened Pages
  import opened Directories
  import opened Backends

  // The record kept for a book base: its first directory, or nothing before the book's end.
  ghost predicate BookIndexed(record: Option<Key>, keys: set<Key>, book: Key) {
    if Next(keys, book) < book + QUALITY_SPAN then
      record == Some(Next(keys, book))
    else
      record.Some? ==> record.value >= book + QUALITY_SPAN
  }

  // The directories of a book after `key`, best quality first.
  ghost function DirsAfter(keys: set<Key>, key: Key, end: int): seq<Key>
    requires end <= LAST_KEY
    decreases Above(keys, key)
  {
    var n := Next(keys, key);
    if n >= end then []
    else
      assert n in Above(keys, key) && n !in Above(keys, n);
      [n] + DirsAfter(keys, n, end)
  }

  ghost predicate BookChains(state: State, hash: PageHash, book: Key, chains: map<Key, seq<nat>>) {
    forall k {:trigger k in chains} | k in state && book < k < book + QUALITY_SPAN ::
      k in chains && IsChain(state, hash, k, chains[k])
  }

  // Every offer of the listed directories, page by page.
  ghost function OffersOf(state: State, hash: PageHash, chains: map<Key, seq<nat>>, dirs: seq<Key>): seq<Key>
    requires forall d | d in dirs :: d in chains
  {
    if dirs == [] then []
    else Entries(state, hash, dirs[0], chains[dirs[0]]) + OffersOf(state, hash, chains, dirs[1..])
  }

  lemma {:induction false} DirsAreInBook(keys: set<Key>, key: Key, end: int)
    requires end <= LAST_KEY
    ensures forall d :: d in DirsAfter(keys, key, end) <==> d in keys && key < d < end
    decreases Above(keys, key)
  {
    var n := Next(keys, key);
    if n < end {
      assert n in Above(keys, key) && n !in Above(keys, n);
      DirsAreInBook(keys, n, end);
    }
  }

  // Every key of the range is listed once, lowest first.
  lemma {:induction false} DirsAscend(keys: set<Key>, key: Key, end: int)
    requires end <= LAST_KEY
    ensures Ascending(DirsAfter(keys, key, end))
    decreases Above(keys, key)
  {
    var n := Next(keys, key);
    if n < end {
      assert n in Above(keys, key) && n !in Above(keys, n);
      DirsAscend(keys, n, end);
      DirsAreInBook(keys, n, end);
      AscendingFrom(n, DirsAfter(keys, n, end));
    }
  }

  // Reads whole pages of one directory until there are enough keys or no more pages.
  method ReadDirectory(
    b: Backend, root: Key, blob: Blob, ledger: nat, limit: nat, before: seq<Key>, hash: PageHash,
    ghost state: State, ghost chain: seq<nat>)
    returns (keys: seq<Key>)
    requires b.ServesObjects(state, ledger)
    requires root in state && blob == state[root]
    requires IsChain(state, hash, root, chain)
    requires |before| < limit
    ensures keys <= before + Entries(state, hash, root, chain)
    ensures |keys| < limit ==> keys == before + Entries(state, hash, root, chain)
  {
    keys := before;
    var dir := blob;
    ghost var i := 0;
    ghost var total := before + Entries(state, hash, root, chain);
    assert chain[0..] == chain;
    assert LinkAt(state, hash, root, chain, 0);
    while |keys| < limit
      invariant 0 <= i < |chain| && LinkAt(state, hash, root, chain, i)
      invariant dir == state[PageKey(hash, root, chain[i])]
      invariant keys + Entries(state, hash, root, chain[i..]) == total
      decreases |chain| - i
    {
      assert LinkAt(state, hash, root, chain, i);
      keys := keys + dir.content.indexes;
      assert chain[i..][1..] == chain[i + 1..];
      var next := dir.content.next;
      assert i + 1 < |chain| ==> LinkAt(state, hash, root, chain, i + 1);
      if next == 0 {
        assert keys + Entries(state, hash, root, chain[i + 1..]) == total;
        break;
      }
      assert LinkAt(state, hash, root, chain, i + 1);
      var nextDir := b.FetchLedgerObject(hash(root, next), ledger, state);
      i := i + 1;
      dir := nextDir.value;
    }
  }

  lemma ExtendedPrefix(before: seq<Key>, here: seq<Key>, tail: seq<Key>, keys: seq<Key>)
    requires keys <= before + here
    ensures keys <= before + (here + tail)
    ensures keys == before + here ==> keys + tail == before + (here + tail)
  {
  }

  lemma FirstOf(keys: seq<Key>, all: seq<Key>, limit: nat)
    requires keys <= all
    requires |keys| >= limit || keys == all
    ensures Take(keys, limit) == Take(all, limit)
  {
  }

  method FirstOffers(
    keys: seq<Key>, objs: seq<Blob>, limit: nat, ghost state: State) returns (offers: seq<LedgerObject>)
    requires objs == seq(|keys|, i requires 0 <= i < |keys| => Lookup(state, keys[i]))
    ensures offers == ObjectsAt(state, Take(keys, limit))
  {
    offers := [];
    var i := 0;
    while i < |keys| && i < limit
      invariant i <= |keys| && i <= limit
      invariant offers == ObjectsAt(state, keys[..i])
    {
      offers := offers + [LedgerObject(keys[i], objs[i])];
      i := i + 1;
    }
    assert keys[..|keys|] == keys;
  }

  // The next directory of the book, if there is one before the book's end.
  method NextOfferDir(b: Backend, book: Key, tip: Key, ledger: nat, ghost state: State)
    returns (dir: Option<LedgerObject>)
    requires b.ServesObjects(state, ledger) && b.ServesSuccessors(state.Keys, ledger)
    requires tip == book || tip in state
    requires book + QUALITY_SPAN <= LAST_KEY
    requires BookIndexed(DbSuccessor(b.successor, book, ledger), state.Keys, book)
    ensures dir.None? <==> Next(state.Keys, tip) >= book + QUALITY_SPAN
    ensures dir.Some? ==> dir.value.key in state
    ensures dir.Some? ==> dir.value == LedgerObject(Next(state.Keys, tip), state[dir.value.key])
  {
    var next := b.FetchSuccessorKey(tip, ledger, state.Keys);
    if next.None? || next.value >= book + QUALITY_SPAN {
      return None;
    }
    var blob := b.FetchLedgerObject(next.value, ledger, state);
    dir := Some(LedgerObject(next.value, blob.value));
  }

  // The first `limit` offers of the book, in directory order, whatever the page boundaries.
  method FetchBookOffers(
    b: Backend, book: Key, ledger: nat, limit: nat, hash: PageHash,
    ghost state: State, ghost chains: map<Key, seq<nat>>)
    returns (offers: seq<LedgerObject>)
    requires book + QUALITY_SPAN <= LAST_KEY
    requires b.ServesObjects(state, ledger) && b.ServesSuccessors(state.Keys, ledger)
    requires BookIndexed(DbSuccessor(b.successor, book, ledger), state.Keys, book)
    requires BookChains(state, hash, book, chains)
    ensures forall d | d in DirsAfter(state.Keys, book, book + QUALITY_SPAN) :: d in chains
    ensures var all := OffersOf(state, hash, chains, DirsAfter(state.Keys, book, book + QUALITY_SPAN));
      offers == ObjectsAt(state, Take(all, limit))
  {
    var bookEnd := book + QUALITY_SPAN;
    var tip := book;
    var keys: seq<Key> := [];
    DirsAreInBook(state.Keys, book, bookEnd);
    ghost var rest := DirsAfter(state.Keys, tip, bookEnd);
    ghost var all := OffersOf(state, hash, chains, rest);
    while |keys| < limit
      invariant tip == book || tip in state
      invariant rest == DirsAfter(state.Keys, tip, bookEnd)
      invariant forall d | d in rest :: d in chains
      invariant keys <= all
      invariant |keys| < limit ==> keys + OffersOf(state, hash, chains, rest) == all
      decreases Above(state.Keys, tip)
    {
      var offerDir := NextOfferDir(b, book, tip, ledger, state);
      if offerDir.None? {
        assert rest == [] && keys + [] == all;
        assert keys == all;
        break;
      }
      FirstDir(state.Keys, tip, bookEnd);
      tip := offerDir.value.key;
      var more := ReadDirectory(b, tip, offerDir.value.blob, ledger, limit, keys, hash, state, chains[tip]);
      ExtendedPrefix(keys, Entries(state, hash, tip, chains[tip]), OffersOf(state, hash, chains, rest[1..]), more);
      keys, rest := more, rest[1..];
    }
    FirstOf(keys, all, limit);
    var objs := b.FetchLedgerObjects(keys, ledger, state);
    offers := FirstOffers(keys, objs, limit, state);
  }

  lemma FirstDir(keys: set<Key>, key: Key, end: int)
    requires end <= LAST_KEY && Next(keys, key) < end
    ensures var n := Next(keys, key);
      n in keys && key < n && Above(keys, n) < Above(keys, key) && DirsAfter(keys, key, end) == [n] + DirsAfter(keys, n, end)
  {
    var n := Next(keys, key);
    assert n in Above(keys, key) && n !in Above(keys, n);
  }

  /* What the list of offers is */

  // How many offers the directories hold.
  ghost function CountOffers(state: State, hash: PageHash, chains: map<Key, seq<nat>>, dirs: seq<Key>): nat
    requires forall d | d in dirs :: d in chains
  {
    if dirs == [] then 0
    else
      var last := |dirs| - 1;
      CountOffers(state, hash, chains, dirs[..last]) + Count(state, hash, dirs[last], chains[dirs[last]])
  }

  lemma {:induction false} OffersConcat(
    state: State, hash: PageHash, chains: map<Key, seq<nat>>, a: seq<Key>, b: seq<Key>)
    requires forall d | d in a + b :: d in chains
    requires (forall d | d in a :: d in chains) && (forall d | d in b :: d in chains)
    ensures OffersOf(state, hash, chains, a + b) == OffersOf(state, hash, chains, a) + OffersOf(state, hash, chains, b)
  {
    if a == [] {
      assert a + b == b;
    } else {
      assert (a + b)[1..] == a[1..] + b;
      OffersConcat(state, hash, chains, a[1..], b);
      Regroup(
        Entries(state, hash, a[0], chains[a[0]]), OffersOf(state, hash, chains, a[1..]),
        OffersOf(state, hash, chains, b));
    }
  }

  lemma {:induction false} OffersCounted(state: State, hash: PageHash, chains: map<Key, seq<nat>>, dirs: seq<Key>)
    requires forall d | d in dirs :: d in chains
    ensures |OffersOf(state, hash, chains, dirs)| == CountOffers(state, hash, chains, dirs)
  {
    if dirs != [] {
      var last := |dirs| - 1;
      OffersCounted(state, hash, chains, dirs[..last]);
      assert dirs == dirs[..last] + [dirs[last]] && [dirs[last]][1..] == [];
      OffersConcat(state, hash, chains, dirs[..last], [dirs[last]]);
      EntriesCounted(state, hash, dirs[last], chains[dirs[last]]);
    }
  }

  lemma OffersAround(state: State, hash: PageHash, chains: map<Key, seq<nat>>, dirs: seq<Key>, i: nat)
    requires (forall d | d in dirs :: d in chains) && i < |dirs|
    ensures OffersOf(state, hash, chains, dirs)
      == OffersOf(state, hash, chains, dirs[..i]) + Entries(state, hash, dirs[i], chains[dirs[i]])
       + OffersOf(state, hash, chains, dirs[i + 1..])
  {
    assert dirs == dirs[..i] + dirs[i..];
    OffersConcat(state, hash, chains, dirs[..i], dirs[i..]);
    assert dirs[i..][1..] == dirs[i + 1..] && dirs[i..][0] == dirs[i];
    Regroup(
      OffersOf(state, hash, chains, dirs[..i]), Entries(state, hash, dirs[i], chains[dirs[i]]),
      OffersOf(state, hash, chains, dirs[i + 1..]));
  }

  lemma OfferOfDir(
    state: State, hash: PageHash, chains: map<Key, seq<nat>>, dirs: seq<Key>, i: nat, j: nat, m: nat)
    requires (forall d | d in dirs :: d in chains) && i < |dirs| && j < |chains[dirs[i]]|
    requires m < |Indexes(state, PageKey(hash, dirs[i], chains[dirs[i]][j]))|
    ensures var pages := chains[dirs[i]];
      var at := CountOffers(state, hash, chains, dirs[..i]) + Count(state, hash, dirs[i], pages[..j]) + m;
      && at < |OffersOf(state, hash, chains, dirs)|
      && OffersOf(state, hash, chains, dirs)[at] == Indexes(state, PageKey(hash, dirs[i], pages[j]))[m]
  {
    var pages := chains[dirs[i]];
    EntryAt(state, hash, dirs[i], pages, j, m);
    OffersAround(state, hash, chains, dirs, i);
    OffersCounted(state, hash, chains, dirs[..i]);
    InMiddle(
      OffersOf(state, hash, chains, dirs[..i]), Entries(state, hash, dirs[i], pages),
      OffersOf(state, hash, chains, dirs[i + 1..]), Count(state, hash, dirs[i], pages[..j]) + m);
  }

  lemma PageOfChain(state: State, hash: PageHash, root: Key, chain: seq<nat>, j: nat)
    requires IsChain(state, hash, root, chain) && j < |chain|
    ensures var key := PageKey(hash, root, chain[j]);
      IsDirectory(state, key) && Indexes(state, key) == state[key].content.indexes
  {
    assert LinkAt(state, hash, root, chain, j);
  }

  // The directories of the book, all of them and best quality first.
  ghost predicate AllDirs(state: State, book: Key, dirs: seq<Key>) {
    && Ascending(dirs)
    && forall d :: d in dirs <==> d in state && book < d < book + QUALITY_SPAN
  }

  // The list of a book's offers holds the indexes of every page of every directory of the book,
  // directory after directory, page after page and index after index, and there are as many of
  // them as those pages hold.
  lemma OffersInOrder(
    state: State, hash: PageHash, book: Key, chains: map<Key, seq<nat>>, dirs: seq<Key>, i: nat, j: nat, m: nat)
    requires book + QUALITY_SPAN <= LAST_KEY && BookChains(state, hash, book, chains)
    requires dirs == DirsAfter(state.Keys, book, book + QUALITY_SPAN)
    ensures AllDirs(state, book, dirs) && (forall d | d in dirs :: d in chains)
    ensures |OffersOf(state, hash, chains, dirs)| == CountOffers(state, hash, chains, dirs)
    ensures i < |dirs| && j < |chains[dirs[i]]| ==>
      var pages := chains[dirs[i]];
      var key := PageKey(hash, dirs[i], pages[j]);
      var at := CountOffers(state, hash, chains, dirs[..i]) + Count(state, hash, dirs[i], pages[..j]) + m;
      && IsDirectory(state, key)
      && (m < |state[key].content.indexes| ==>
            && at < |OffersOf(state, hash, chains, dirs)|
            && OffersOf(state, hash, chains, dirs)[at] == state[key].content.indexes[m])
  {
    DirsAreInBook(state.Keys, book, book + QUALITY_SPAN);
    DirsAscend(state.Keys, book, book + QUALITY_SPAN);
    OffersCounted(state, hash, chains, dirs);
    if i < |dirs| && j < |chains[dirs[i]]| {
      assert dirs[i] in dirs;
      PageOfChain(state, hash, dirs[i], chains[dirs[i]], j);
      if m < |state[PageKey(hash, dirs[i], chains[dirs[i]][j])].content.indexes| {
        OfferOfDir(state, hash, chains, dirs, i, j, m);
      }
    }
  }

  // The offer is on some page of some directory of the book.
  ghost predicate OnBookPage(state: State, hash: PageHash, book: Key, chains: map<Key, seq<nat>>, offer: Key) {
    exists d, p {:trigger PageKey(hash, d, p)} ::
      && d in state && book < d < book + QUALITY_SPAN && d in chains && p in chains[d]
      && IsDirectory(state, PageKey(hash, d, p)) && offer in state[PageKey(hash, d, p)].content.indexes
  }

  lemma {:induction false} OfferFrom(
    state: State, hash: PageHash, chains: map<Key, seq<nat>>, dirs: seq<Key>, offer: Key)
    requires (forall d | d in dirs :: d in chains) && offer in OffersOf(state, hash, chains, dirs)
    ensures exists d :: d in dirs && offer in Entries(state, hash, d, chains[d])
  {
    if offer !in Entries(state, hash, dirs[0], chains[dirs[0]]) {
      OfferFrom(state, hash, chains, dirs[1..], offer);
    }
  }

  lemma ListedIsOnPage(state: State, hash: PageHash, book: Key, chains: map<Key, seq<nat>>, dirs: seq<Key>, offer: Key)
    requires forall d | d in dirs :: d in chains && d in state && book < d < book + QUALITY_SPAN
    requires offer in OffersOf(state, hash, chains, dirs)
    ensures OnBookPage(state, hash, book, chains, offer)
  {
    OfferFrom(state, hash, chains, dirs, offer);
    var d :| d in dirs && offer in Entries(state, hash, d, chains[d]);
    EntryFrom(state, hash, d, chains[d], offer);
    var p :| p in chains[d] && offer in Indexes(state, PageKey(hash, d, p));
    assert IsDirectory(state, PageKey(hash, d, p));
  }

  lemma OnPageIsListed(
    state: State, hash: PageHash, chains: map<Key, seq<nat>>, dirs: seq<Key>, d: Key, p: nat, offer: Key)
    requires (forall e | e in dirs :: e in chains) && d in dirs && p in chains[d]
    requires offer in Indexes(state, PageKey(hash, d, p))
    ensures offer in OffersOf(state, hash, chains, dirs)
  {
    var i :| 0 <= i < |dirs| && dirs[i] == d;
    var j :| 0 <= j < |chains[d]| && chains[d][j] == p;
    var indexes := Indexes(state, PageKey(hash, d, p));
    var m :| 0 <= m < |indexes| && indexes[m] == offer;
    OfferOfDir(state, hash, chains, dirs, i, j, m);
  }

  // Nothing is listed but what is on such a page, and nothing on one is left out.
  lemma OffersAreOnPages(state: State, hash: PageHash, book: Key, chains: map<Key, seq<nat>>, dirs: seq<Key>, offer: Key)
    requires book + QUALITY_SPAN <= LAST_KEY && BookChains(state, hash, book, chains)
    requires dirs == DirsAfter(state.Keys, book, book + QUALITY_SPAN)
    ensures forall d | d in dirs :: d in chains
    ensures offer in OffersOf(state, hash, chains, dirs) <==> OnBookPage(state, hash, book, chains, offer)
  {
    DirsAreInBook(state.Keys, book, book + QUALITY_SPAN);
    if offer in OffersOf(state, hash, chains, dirs) {
      ListedIsOnPage(state, hash, book, chains, dirs, offer);
    }
    if OnBookPage(state, hash, book, chains, offer) {
      var d, p :| d in state && book < d < book + QUALITY_SPAN && d in chains && p in chains[d]
        && IsDirectory(state, PageKey(hash, d, p)) && offer in state[PageKey(hash, d, p)].content.indexes;
      OnPageIsListed(state, hash, chains, dirs, d, p, offer);
    }
  }
}
