// Paging through the objects an account owns (src/rpc/RPCHelpers.cpp, traverseOwnedNodes).
module OwnerDirectory {
  import opened Wrappers
  import opened Sequences
  import opened Ledger
  import opened Directories
  import opened Backends

  const HINT_SPAN: nat := 0x1_0000_0000

  // The last object returned and a hint of the page it is on. Zero stands for no cursor.
  datatype AccountCursor = AccountCursor(index: Key, hint: nat)

  const NO_CURSOR := AccountCursor(FIRST_KEY, 0)

  datatype Error = InvalidMarker | DirectoryNotFound

  // An object in the directory and the number of its page.
  datatype Owned = Owned(page: nat, key: Key)

  /* What a directory lists */

  // The pages reached from page `start` by following the links to the end.
  ghost predicate IsTail(state: State, hash: PageHash, root: Key, start: nat, pages: seq<nat>) {
    && |pages| > 0 && pages[0] == start
    && forall i: nat {:trigger LinkAt(state, hash, root, pages, i)} | i < |pages| :: LinkAt(state, hash, root, pages, i)
  }

  ghost function OnPage(state: State, hash: PageHash, root: Key, page: nat): seq<Owned> {
    var indexes := Indexes(state, PageKey(hash, root, page));
    seq(|indexes|, i requires 0 <= i < |indexes| => Owned(page, indexes[i]))
  }

  // Every entry of the listed pages, in order.
  ghost function Listed(state: State, hash: PageHash, root: Key, pages: seq<nat>): seq<Owned> {
    if pages == [] then [] else OnPage(state, hash, root, pages[0]) + Listed(state, hash, root, pages[1..])
  }

  function Keys(list: seq<Owned>): seq<Key> {
    seq(|list|, i requires 0 <= i < |list| => list[i].key)
  }

  // They are the indexes of the pages, in order.
  lemma {:induction false} ListedAreEntries(state: State, hash: PageHash, root: Key, pages: seq<nat>)
    ensures Keys(Listed(state, hash, root, pages)) == Entries(state, hash, root, pages)
  {
    if pages != [] {
      ListedAreEntries(state, hash, root, pages[1..]);
      assert Keys(OnPage(state, hash, root, pages[0])) == Indexes(state, PageKey(hash, root, pages[0]));
    }
  }

  // The entries after the marker's first place.
  function After(list: seq<Owned>, marker: Key): seq<Owned> {
    if list == [] then []
    else if list[0].key == marker then list[1..]
    else After(list[1..], marker)
  }

  function AfterSkip(list: seq<Owned>, skip: Option<Key>): seq<Owned> {
    if skip.Some? then After(list, skip.value) else list
  }

  // Where the next call goes on from, if the limit was reached.
  function CursorAt(list: seq<Owned>, limit: nat): AccountCursor
    requires limit > 0
  {
    if limit <= |list| then AccountCursor(list[limit - 1].key, list[limit - 1].page % HINT_SPAN) else NO_CURSOR
  }

  lemma {:induction false} AfterConcat(a: seq<Owned>, b: seq<Owned>, marker: Key)
    ensures After(a + b, marker) == if marker in Keys(a) then After(a, marker) + b else After(b, marker)
  {
    if a == [] {
      assert a + b == b;
    } else {
      assert (a + b)[1..] == a[1..] + b;
      assert Keys(a) == [a[0].key] + Keys(a[1..]);
      AfterConcat(a[1..], b, marker);
    }
  }

  lemma {:induction false} AfterAt(list: seq<Owned>, k: nat)
    requires k < |list|
    requires forall i, j | 0 <= i < j < |list| :: list[i].key != list[j].key
    ensures After(list, list[k].key) == list[k + 1..]
  {
    if k > 0 {
      AfterAt(list[1..], k - 1);
    }
  }

  /* One call */

  // One entry: the marker, one before it, or one to return.
  method ScanEntry(key: Key, skip: Option<Key>, keys: seq<Key>, left: nat, ghost rest: seq<Owned>)
    returns (keys': seq<Key>, left': nat, skip': Option<Key>)
    requires rest != [] && key == rest[0].key && left > 0
    ensures keys' + Keys(Take(AfterSkip(rest[1..], skip'), left')) == keys + Keys(Take(AfterSkip(rest, skip), left))
    ensures left' + |keys'| == left + |keys|
    ensures skip' == if skip == Some(key) then None else skip
  {
    ScanStep(rest, skip, left, keys);
    keys', left', skip' := keys, left, skip;
    if skip.Some? {
      if key == skip.value {
        skip' := None;
      }
    } else {
      keys' := keys + [key];
      left' := left - 1;
    }
  }

  // The entries of one page, of which those up to the marker are skipped.
  method ScanPage(indexes: seq<Key>, skip: Option<Key>, limit: nat, ghost page: seq<Owned>)
    returns (keys: seq<Key>, left: nat, skipAfter: Option<Key>)
    requires indexes == Keys(page) && limit > 0
    ensures keys == Keys(Take(AfterSkip(page, skip), limit)) && left == limit - |keys|
    ensures left > 0 ==> skipAfter == if skip.Some? && skip.value in indexes then None else skip
  {
    keys, left, skipAfter := [], limit, skip;
    ghost var want := Keys(Take(AfterSkip(page, skip), limit));
    ghost var rest := page;
    var i := 0;
    while i < |indexes| && left > 0
      invariant i <= |indexes| && rest == page[i..]
      invariant left == limit - |keys|
      invariant skipAfter == if skip.Some? && skip.value in indexes[..i] then None else skip
      invariant keys + Keys(Take(AfterSkip(rest, skipAfter), left)) == want
    {
      SeenMore(indexes, i, skip);
      keys, left, skipAfter := ScanEntry(indexes[i], skipAfter, keys, left, rest);
      rest := rest[1..];
      i := i + 1;
    }
    assert left > 0 ==> indexes[..i] == indexes && rest == [];
    NothingMore(rest, skipAfter, left);
    assert keys + [] == keys;
  }

  lemma SeenMore(indexes: seq<Key>, i: nat, skip: Option<Key>)
    requires i < |indexes|
    ensures skip.Some? ==> (skip.value in indexes[..i + 1] <==> skip.value in indexes[..i] || skip.value == indexes[i])
  {
    assert indexes[..i + 1] == indexes[..i] + [indexes[i]];
  }

  lemma NothingMore(rest: seq<Owned>, skip: Option<Key>, left: nat)
    requires left == 0 || rest == []
    ensures Keys(Take(AfterSkip(rest, skip), left)) == []
  {
  }

  lemma ScanStep(rest: seq<Owned>, skip: Option<Key>, left: nat, keys: seq<Key>)
    requires rest != [] && left > 0
    ensures var skip' := if skip.Some? && rest[0].key == skip.value then None else skip;
      keys + Keys(Take(AfterSkip(rest, skip), left)) ==
        if skip.Some? then keys + Keys(Take(AfterSkip(rest[1..], skip'), left))
        else (keys + [rest[0].key]) + Keys(Take(AfterSkip(rest[1..], None), left - 1))
  {
    if skip.None? {
      assert Keys(Take(rest, left)) == [rest[0].key] + Keys(Take(rest[1..], left - 1));
    }
  }

  lemma {:induction false} AfterIsPart(list: seq<Owned>, marker: Key)
    ensures forall e | e in After(list, marker) :: e in list
  {
    if list != [] && list[0].key != marker {
      AfterIsPart(list[1..], marker);
    }
  }

  // A page and then the rest.
  lemma SkipConcat(a: seq<Owned>, b: seq<Owned>, skip: Option<Key>)
    ensures var skip' := if skip.Some? && skip.value in Keys(a) then None else skip;
      AfterSkip(a + b, skip) == AfterSkip(a, skip) + AfterSkip(b, skip')
    ensures forall e | e in AfterSkip(a, skip) :: e in a
  {
    if skip.Some? {
      AfterConcat(a, b, skip.value);
      AfterIsPart(a, skip.value);
      if skip.value !in Keys(a) {
        AfterNothing(a, skip.value);
      }
    }
  }

  lemma {:induction false} AfterNothing(list: seq<Owned>, marker: Key)
    requires marker !in Keys(list)
    ensures After(list, marker) == []
  {
    if list != [] {
      assert Keys(list) == [list[0].key] + Keys(list[1..]);
      AfterNothing(list[1..], marker);
    }
  }

  // Where the walk stands when it leaves a page: everything before `rest` is collected, or the
  // limit was reached on this page.
  lemma PageStep(
    want: seq<Owned>, done: seq<Owned>, page: seq<Owned>, rest: seq<Owned>, skip: Option<Key>, limit: nat,
    number: nat, keys: seq<Key>)
    requires want == done + AfterSkip(page + rest, skip) && |done| < limit
    requires keys == Keys(Take(AfterSkip(page, skip), limit - |done|))
    requires forall e | e in page :: e.page == number
    ensures |done| + |keys| < limit ==>
      && keys == Keys(AfterSkip(page, skip))
      && var skip' := if skip.Some? && skip.value in Keys(page) then None else skip;
      want == (done + AfterSkip(page, skip)) + AfterSkip(rest, skip')
    ensures |done| + |keys| == limit ==>
      && Keys(Take(want, limit)) == Keys(done) + keys
      && CursorAt(want, limit) == AccountCursor(keys[|keys| - 1], number % HINT_SPAN)
  {
    SkipConcat(page, rest, skip);
    var here := AfterSkip(page, skip);
    var later := AfterSkip(rest, if skip.Some? && skip.value in Keys(page) then None else skip);
    assert want == (done + here) + later;
    if |done| + |keys| == limit {
      assert limit - |done| <= |here|;
      assert want[limit - 1] == here[limit - 1 - |done|];
      assert here[limit - 1 - |done|] in here;
      assert Take(want, limit) == done + Take(here, limit - |done|);
    }
  }

  // One page of the directory: what it lists, and the number of the next one, or zero.
  method ReadPage(
    b: Backend, key: Key, ledger: nat, ghost state: State, ghost hash: PageHash, ghost root: Key,
    ghost pages: seq<nat>, ghost i: nat)
    returns (page: Option<(seq<Key>, nat)>)
    requires b.ServesObjects(state, ledger)
    requires IsTail(state, hash, root, if |pages| > 0 then pages[0] else 0, pages)
    requires i < |pages| && key == PageKey(hash, root, pages[i])
    ensures page.Some? && page.value.0 == Keys(OnPage(state, hash, root, pages[i]))
    ensures if i + 1 < |pages| then page.value.1 == pages[i + 1] != 0 else page.value.1 == 0
    ensures Listed(state, hash, root, pages[i..])
      == OnPage(state, hash, root, pages[i]) + Listed(state, hash, root, pages[i + 1..])
  {
    assert LinkAt(state, hash, root, pages, i);
    assert i + 1 < |pages| ==> LinkAt(state, hash, root, pages, i + 1);
    assert pages[i..][1..] == pages[i + 1..];
    var ownerDir := b.FetchLedgerObject(key, ledger, state);
    if ownerDir.None? {
      return None;
    }
    page := Some((ownerDir.value.content.indexes, ownerDir.value.content.next));
    assert page.value.0 == Keys(OnPage(state, hash, root, pages[i]));
  }

  // Collects from one page. `done` is collected so far, out of what is wanted in all.
  method CollectPage(
    b: Backend, key: Key, ledger: nat, keys: seq<Key>, left: nat, skip: Option<Key>,
    ghost state: State, ghost hash: PageHash, ghost root: Key, ghost pages: seq<nat>, ghost i: nat,
    ghost want: seq<Owned>, ghost done: seq<Owned>, ghost limit: nat)
    returns (found: bool, keys': seq<Key>, left': nat, skip': Option<Key>, next: nat, ghost done': seq<Owned>)
    requires b.ServesObjects(state, ledger)
    requires IsTail(state, hash, root, if |pages| > 0 then pages[0] else 0, pages)
    requires i < |pages| && key == PageKey(hash, root, pages[i])
    requires want == done + AfterSkip(Listed(state, hash, root, pages[i..]), skip)
    requires keys == Keys(done) && left == limit - |done| > 0
    ensures found && (if i + 1 < |pages| then next == pages[i + 1] != 0 else next == 0)
    ensures left' > 0 ==>
      && want == done' + AfterSkip(Listed(state, hash, root, pages[i + 1..]), skip')
      && keys' == Keys(done') && left' == limit - |done'|
    ensures left' == 0 ==>
      keys' == Keys(Take(want, limit)) && |keys'| > 0
      && CursorAt(want, limit) == AccountCursor(keys'[|keys'| - 1], pages[i] % HINT_SPAN)
  {
    found, keys', left', skip', next, done' := false, keys, left, skip, 0, done;
    var page := ReadPage(b, key, ledger, state, hash, root, pages, i);
    if page.None? {
      return;
    }
    ghost var here, rest := OnPage(state, hash, root, pages[i]), Listed(state, hash, root, pages[i + 1..]);
    var more;
    more, left', skip' := ScanPage(page.value.0, skip, left, here);
    PageStep(want, done, here, rest, skip, limit, pages[i], more);
    keys' := keys + more;
    done' := done + AfterSkip(here, skip);
    found, next := true, page.value.1;
  }

  // The loop over pages, from the page given to the end or until the limit is reached.
  method WalkPages(
    b: Backend, root: Key, page: nat, hint: nat, skip: Option<Key>, ledger: nat, limit: nat, hash: PageHash,
    ghost state: State, ghost pages: seq<nat>)
    returns (r: Result<(AccountCursor, seq<Key>), Error>)
    requires b.ServesObjects(state, ledger) && limit > 0
    requires IsTail(state, hash, root, page, pages)
    ensures var want := AfterSkip(Listed(state, hash, root, pages), skip);
      && r.Ok? && r.value.1 == Keys(Take(want, limit))
      && r.value.0.index == CursorAt(want, limit).index
      && (hint == page % HINT_SPAN ==> r.value.0 == CursorAt(want, limit))
  {
    var keys: seq<Key> := [];
    var left: nat, skipping, currentPage: nat, currentIndex := limit, skip, hint, PageKey(hash, root, page);
    ghost var i: nat, done: seq<Owned> := 0, [];
    ghost var want := AfterSkip(Listed(state, hash, root, pages), skip);
    assert pages[0..] == pages;
    while true
      invariant i < |pages| && currentIndex == PageKey(hash, root, pages[i])
      invariant i > 0 || hint == page % HINT_SPAN ==> currentPage == pages[i] % HINT_SPAN
      invariant want == done + AfterSkip(Listed(state, hash, root, pages[i..]), skipping)
      invariant keys == Keys(done) && left == limit - |done| > 0
      decreases |pages| - i
    {
      var found, next;
      found, keys, left, skipping, next, done :=
        CollectPage(b, currentIndex, ledger, keys, left, skipping, state, hash, root, pages, i, want, done, limit);
      if !found {
        return Err(DirectoryNotFound);
      }
      if left == 0 {
        return Ok((AccountCursor(keys[|keys| - 1], currentPage), keys));
      }
      if next == 0 {
        NothingLeft(want, done, Listed(state, hash, root, pages[i + 1..]), skipping, limit);
        return Ok((NO_CURSOR, keys));
      }
      i := i + 1;
      currentIndex, currentPage := PageKey(hash, root, next), next % HINT_SPAN;
    }
  }

  lemma NothingLeft(want: seq<Owned>, done: seq<Owned>, rest: seq<Owned>, skip: Option<Key>, limit: nat)
    requires want == done + AfterSkip(rest, skip) && rest == [] && |done| < limit
    ensures Take(want, limit) == done && CursorAt(want, limit) == NO_CURSOR
  {
    assert want == done;
  }

  /* The whole call */

  type Traversed = Result<(AccountCursor, seq<Key>), Error>

  function Page(list: seq<Owned>, limit: nat): Traversed
    requires limit > 0
  {
    Ok((CursorAt(list, limit), Keys(Take(list, limit))))
  }

  // What a call returns; `pages` are those reached from where it starts.
  ghost function Traversal(
    state: State, hash: PageHash, root: Key, cursor: AccountCursor, limit: nat, pages: seq<nat>): Traversed
    requires limit > 0
  {
    var hinted := PageKey(hash, root, cursor.hint);
    if cursor.index == FIRST_KEY then
      if root in state then Page(Listed(state, hash, root, pages), limit) else Ok((NO_CURSOR, []))
    else if hinted !in state then
      Err(InvalidMarker)
    else if cursor.index !in Indexes(state, hinted) then
      Ok((NO_CURSOR, []))
    else
      Page(After(Listed(state, hash, root, pages), cursor.index), limit)
  }

  // The page a call starts on.
  function StartPage(cursor: AccountCursor): nat {
    if cursor.index == FIRST_KEY then 0 else cursor.hint
  }

  method TraverseOwnedNodes(
    b: Backend, root: Key, marker: AccountCursor, ledger: nat, limit: nat, hash: PageHash,
    ghost state: State, ghost pages: seq<nat>)
    returns (r: Traversed)
    requires b.ServesObjects(state, ledger) && limit > 0 && marker.hint < HINT_SPAN
    requires PageKey(hash, root, StartPage(marker)) in state ==> IsTail(state, hash, root, StartPage(marker), pages)
    ensures var t := Traversal(state, hash, root, marker, limit, pages);
      if marker.index == FIRST_KEY && marker.hint != 0 then r.Ok? && t.Ok? && r.value.1 == t.value.1 else r == t
    // An account without a directory owns nothing, and a marker must name an existing page.
    ensures marker.index == FIRST_KEY && root !in state ==> r == Ok((NO_CURSOR, []))
    ensures marker.index != FIRST_KEY && PageKey(hash, root, marker.hint) !in state ==> r == Err(InvalidMarker)
    ensures marker.index != FIRST_KEY && PageKey(hash, root, marker.hint) in state ==>
      marker.index !in Indexes(state, PageKey(hash, root, marker.hint)) ==> r == Ok((NO_CURSOR, []))
  {
    if marker.index != FIRST_KEY {
      var hintIndex := PageKey(hash, root, marker.hint);
      var hintDir := b.FetchLedgerObject(hintIndex, ledger, state);
      if hintDir.None? {
        return Err(InvalidMarker);
      }
      assert LinkAt(state, hash, root, pages, 0);
      if marker.index !in hintDir.value.content.indexes {
        return Ok((NO_CURSOR, []));
      }
      r := WalkPages(b, root, marker.hint, marker.hint, Some(marker.index), ledger, limit, hash, state, pages);
    } else {
      var ownerDir := b.FetchLedgerObject(root, ledger, state);
      if ownerDir.None? {
        return Ok((NO_CURSOR, []));
      }
      r := WalkPages(b, root, 0, marker.hint, None, ledger, limit, hash, state, pages);
    }
  }

  /* Repeated calls */

  // Entries are real objects, each listed once.
  ghost predicate WellListed(list: seq<Owned>) {
    && (forall i | 0 <= i < |list| :: list[i].key != FIRST_KEY)
    && (forall i, j | 0 <= i < j < |list| :: list[i].key != list[j].key)
  }

  lemma {:induction false} ListedSplit(state: State, hash: PageHash, root: Key, pages: seq<nat>, m: nat)
    requires m <= |pages|
    ensures Listed(state, hash, root, pages) == Listed(state, hash, root, pages[..m]) + Listed(state, hash, root, pages[m..])
  {
    if m > 0 {
      ListedSplit(state, hash, root, pages[1..], m - 1);
      assert pages[..m][1..] == pages[1..][..m - 1];
      assert pages[m..] == pages[1..][m - 1..];
    } else {
      assert pages[0..] == pages;
    }
  }

  // Every entry is on one of the pages.
  lemma {:induction false} PageOfEntry(
    state: State, hash: PageHash, root: Key, pages: seq<nat>, k: nat) returns (m: nat)
    requires k < |Listed(state, hash, root, pages)|
    ensures m < |pages| && Listed(state, hash, root, pages)[k].page == pages[m]
    ensures Listed(state, hash, root, pages)[k].key in Indexes(state, PageKey(hash, root, pages[m]))
    ensures |Listed(state, hash, root, pages[..m])| <= k
  {
    var here := OnPage(state, hash, root, pages[0]);
    if k < |here| {
      m := 0;
      assert here[k].key == Indexes(state, PageKey(hash, root, pages[0]))[k];
    } else {
      var n := PageOfEntry(state, hash, root, pages[1..], k - |here|);
      m := n + 1;
      assert pages[..m][1..] == pages[1..][..n];
    }
  }

  // An entry of one of the pages is listed.
  lemma {:induction false} EntryOfPage(
    state: State, hash: PageHash, root: Key, pages: seq<nat>, page: nat, key: Key) returns (k: nat)
    requires page in pages && key in Indexes(state, PageKey(hash, root, page))
    ensures k < |Listed(state, hash, root, pages)| && Listed(state, hash, root, pages)[k] == Owned(page, key)
  {
    var here := OnPage(state, hash, root, pages[0]);
    if page == pages[0] {
      k :| 0 <= k < |here| && Indexes(state, PageKey(hash, root, page))[k] == key;
    } else {
      k := EntryOfPage(state, hash, root, pages[1..], page, key);
      k := |here| + k;
    }
  }

  lemma TailOfTail(state: State, hash: PageHash, root: Key, start: nat, pages: seq<nat>, m: nat)
    requires IsTail(state, hash, root, start, pages) && m < |pages|
    ensures IsTail(state, hash, root, pages[m], pages[m..])
  {
    var tail := pages[m..];
    forall i: nat | i < |tail| ensures LinkAt(state, hash, root, tail, i) {
      assert LinkAt(state, hash, root, pages, m + i);
    }
  }

  // The links determine the pages.
  lemma {:induction false} TailIsUnique(state: State, hash: PageHash, root: Key, start: nat, a: seq<nat>, b: seq<nat>)
    requires IsTail(state, hash, root, start, a) && IsTail(state, hash, root, start, b)
    ensures a == b
    decreases |a|
  {
    assert LinkAt(state, hash, root, a, 0) && LinkAt(state, hash, root, b, 0);
    assert |a| > 1 ==> LinkAt(state, hash, root, a, 1);
    assert |b| > 1 ==> LinkAt(state, hash, root, b, 1);
    if |a| > 1 {
      TailOfTail(state, hash, root, start, a, 1);
      TailOfTail(state, hash, root, start, b, 1);
      TailIsUnique(state, hash, root, a[1], a[1..], b[1..]);
      assert a == [start] + a[1..] && b == [start] + b[1..];
    } else {
      assert a == [start] && b == [start];
    }
  }

  lemma AfterInTail(list: seq<Owned>, n: nat, k: nat)
    requires WellListed(list) && n <= k < |list|
    ensures After(list[n..], list[k].key) == list[k + 1..]
  {
    AfterAt(list[n..], k - n);
    assert list[n..][k - n + 1..] == list[k + 1..];
  }

  // Going on from an entry: the call starts on the entry's page and skips up to the entry.
  lemma Resume(state: State, hash: PageHash, root: Key, pages: seq<nat>, k: nat, limit: nat) returns (tail: seq<nat>)
    requires IsTail(state, hash, root, 0, pages) && WellListed(Listed(state, hash, root, pages))
    requires k < |Listed(state, hash, root, pages)| && limit > 0
    ensures var list := Listed(state, hash, root, pages);
      && IsTail(state, hash, root, list[k].page, tail)
      && Traversal(state, hash, root, AccountCursor(list[k].key, list[k].page), limit, tail) == Page(list[k + 1..], limit)
  {
    var list := Listed(state, hash, root, pages);
    var m := PageOfEntry(state, hash, root, pages, k);
    tail := pages[m..];
    TailOfTail(state, hash, root, 0, pages, m);
    ListedSplit(state, hash, root, pages, m);
    var n := |Listed(state, hash, root, pages[..m])|;
    assert Listed(state, hash, root, tail) == list[n..];
    AfterInTail(list, n, k);
    assert LinkAt(state, hash, root, pages, m);
  }

  // A cursor names the last entry of its page of results.
  ghost predicate Follows(list: seq<Owned>, n: nat, cursor: AccountCursor) {
    0 < n <= |list| && cursor == AccountCursor(list[n - 1].key, list[n - 1].page)
  }

  lemma PagesAddUp(list: seq<Owned>, n: nat, limit: nat)
    requires limit > 0 && WellListed(list) && n <= |list|
    requires forall i | 0 <= i < |list| :: list[i].page < HINT_SPAN
    ensures var (cursor, keys) := Page(list[n..], limit).value;
      && n + |keys| <= |list| && Keys(list[..n]) + keys == Keys(list[..n + |keys|])
      && (if cursor == NO_CURSOR then n + |keys| == |list| else |keys| > 0 && Follows(list, n + |keys|, cursor))
  {
    var rest := list[n..];
    if limit <= |rest| {
      assert rest[limit - 1] == list[n + limit - 1];
      assert Keys(Take(rest, limit)) == Keys(list[n..n + limit]);
    }
  }

  lemma AllFit(state: State, hash: PageHash, root: Key, pages: seq<nat>)
    requires forall i | 0 <= i < |pages| :: pages[i] < HINT_SPAN
    ensures forall k | 0 <= k < |Listed(state, hash, root, pages)| :: Listed(state, hash, root, pages)[k].page < HINT_SPAN
  {
    forall k | 0 <= k < |Listed(state, hash, root, pages)| ensures Listed(state, hash, root, pages)[k].page < HINT_SPAN {
      var m := PageOfEntry(state, hash, root, pages, k);
    }
  }

  // The first `n` entries have been returned; without a cursor to go on with, all of them have.
  ghost predicate Returned(list: seq<Owned>, all: seq<Key>, cursor: AccountCursor, more: bool) {
    && |all| <= |list| && all == Keys(list[..|all|])
    && (if !more then |all| == |list|
        else if |all| == 0 then cursor == NO_CURSOR
        else Follows(list, |all|, cursor))
  }

  // What such a call returns: the entries after those already returned.
  lemma CallGoesOn(
    state: State, hash: PageHash, root: Key, pages: seq<nat>, all: seq<Key>, cursor: AccountCursor, limit: nat)
    returns (tail: seq<nat>)
    requires IsTail(state, hash, root, 0, pages) && WellListed(Listed(state, hash, root, pages)) && limit > 0
    requires forall i | 0 <= i < |pages| :: pages[i] < HINT_SPAN
    requires Returned(Listed(state, hash, root, pages), all, cursor, true)
    ensures cursor.hint < HINT_SPAN && IsTail(state, hash, root, StartPage(cursor), tail)
    ensures cursor.index == FIRST_KEY ==> cursor.hint == 0
    ensures Traversal(state, hash, root, cursor, limit, tail) == Page(Listed(state, hash, root, pages)[|all|..], limit)
  {
    AllFit(state, hash, root, pages);
    var list := Listed(state, hash, root, pages);
    if |all| > 0 {
      tail := Resume(state, hash, root, pages, |all| - 1, limit);
    } else {
      tail := pages;
      assert list[0..] == list;
      assert LinkAt(state, hash, root, pages, 0);
    }
  }

  // The first call, or one that goes on with the cursor of the one before.
  method NextCall(b: Backend, root: Key, cursor: AccountCursor, ledger: nat, limit: nat, hash: PageHash, all: seq<Key>,
                  ghost state: State, ghost pages: seq<nat>)
    returns (ok: bool, cursor': AccountCursor, all': seq<Key>)
    requires b.ServesObjects(state, ledger) && limit > 0
    requires IsTail(state, hash, root, 0, pages) && WellListed(Listed(state, hash, root, pages))
    requires forall i | 0 <= i < |pages| :: pages[i] < HINT_SPAN
    requires Returned(Listed(state, hash, root, pages), all, cursor, true)
    ensures ok && Returned(Listed(state, hash, root, pages), all', cursor', cursor' != NO_CURSOR)
    ensures cursor' != NO_CURSOR ==> |all'| > |all|
  {
    ghost var tail := CallGoesOn(state, hash, root, pages, all, cursor, limit);
    var r := TraverseOwnedNodes(b, root, cursor, ledger, limit, hash, state, tail);
    if r.Err? {
      return false, cursor, all;
    }
    AllFit(state, hash, root, pages);
    PagesAddUp(Listed(state, hash, root, pages), |all|, limit);
    ok, cursor', all' := true, r.value.0, all + r.value.1;
  }

  // Repeating the call with each cursor returned lists every entry once, in order, for any limit,
  // also when a page or the whole directory ends exactly at the limit; and it ends.
  method TraverseAll(
    b: Backend, root: Key, ledger: nat, limit: nat, hash: PageHash, ghost state: State, ghost pages: seq<nat>)
    returns (ok: bool, all: seq<Key>)
    requires b.ServesObjects(state, ledger) && limit > 0
    requires IsTail(state, hash, root, 0, pages) && WellListed(Listed(state, hash, root, pages))
    requires forall i | 0 <= i < |pages| :: pages[i] < HINT_SPAN
    ensures ok && all == Keys(Listed(state, hash, root, pages)) == Entries(state, hash, root, pages)
  {
    ListedAreEntries(state, hash, root, pages);
    ghost var list := Listed(state, hash, root, pages);
    all := [];
    ok := true;
    var cursor, more := NO_CURSOR, true;
    while more && ok
      invariant ok && Returned(list, all, cursor, more)
      decreases more, |list| - |all|
    {
      ok, cursor, all := NextCall(b, root, cursor, ledger, limit, hash, all, state, pages);
      more := cursor != NO_CURSOR;
    }
    assert list[..|list|] == list;
  }

  // A call with a truncated hint returns nothing, or that the marker is invalid.
  lemma TruncatedHint(state: State, hash: PageHash, root: Key, pages: seq<nat>, k: nat, limit: nat, tail: seq<nat>)
    requires IsTail(state, hash, root, 0, pages) && WellListed(Listed(state, hash, root, pages))
    requires k < |Listed(state, hash, root, pages)| && limit > 0
    requires forall n: nat | PageKey(hash, root, n) in state :: n in pages
    requires Listed(state, hash, root, pages)[k].page >= HINT_SPAN
    ensures var list := Listed(state, hash, root, pages);
      var hint := list[k].page % HINT_SPAN;
      Traversal(state, hash, root, AccountCursor(list[k].key, hint), limit, tail)
      == if PageKey(hash, root, hint) in state then Ok((NO_CURSOR, [])) else Err(InvalidMarker)
  {
    var list := Listed(state, hash, root, pages);
    var hint := list[k].page % HINT_SPAN;
    if PageKey(hash, root, hint) in state && list[k].key in Indexes(state, PageKey(hash, root, hint)) {
      var j := EntryOfPage(state, hash, root, pages, hint, list[k].key);
    }
  }

  lemma PageIsEmptyIff(list: seq<Owned>, limit: nat)
    requires limit > 0
    ensures Page(list, limit) == Ok((NO_CURSOR, [])) <==> list == []
  {
    assert |Keys(Take(list, limit))| == 0 <==> list == [];
  }

  lemma FullHint(state: State, hash: PageHash, root: Key, pages: seq<nat>, k: nat, limit: nat, tail: seq<nat>)
    requires IsTail(state, hash, root, 0, pages) && WellListed(Listed(state, hash, root, pages))
    requires k < |Listed(state, hash, root, pages)| && limit > 0
    requires var page := Listed(state, hash, root, pages)[k].page;
      PageKey(hash, root, page) in state ==> IsTail(state, hash, root, page, tail)
    ensures var list := Listed(state, hash, root, pages);
      Traversal(state, hash, root, AccountCursor(list[k].key, list[k].page), limit, tail) == Page(list[k + 1..], limit)
  {
    var own := Resume(state, hash, root, pages, k, limit);
    assert LinkAt(state, hash, root, own, 0);
    TailIsUnique(state, hash, root, Listed(state, hash, root, pages)[k].page, own, tail);
  }

  // A hint has 32 bits. Going on after an entry whose page number needs more works just when
  // nothing follows it and the page with the truncated number exists.
  lemma ResumesIffHintFits(state: State, hash: PageHash, root: Key, pages: seq<nat>, k: nat, limit: nat, tail: seq<nat>)
    requires IsTail(state, hash, root, 0, pages) && WellListed(Listed(state, hash, root, pages))
    requires k < |Listed(state, hash, root, pages)| && limit > 0
    // Every existing page of the directory is in the list.
    requires forall n: nat | PageKey(hash, root, n) in state :: n in pages
    requires var hint := Listed(state, hash, root, pages)[k].page % HINT_SPAN;
      PageKey(hash, root, hint) in state ==> IsTail(state, hash, root, hint, tail)
    ensures var list := Listed(state, hash, root, pages);
      var hint := list[k].page % HINT_SPAN;
      var works := Traversal(state, hash, root, AccountCursor(list[k].key, hint), limit, tail) == Page(list[k + 1..], limit);
      works <==> list[k].page < HINT_SPAN || (k + 1 == |list| && PageKey(hash, root, hint) in state)
  {
    var list := Listed(state, hash, root, pages);
    if list[k].page < HINT_SPAN {
      assert list[k].page % HINT_SPAN == list[k].page;
      FullHint(state, hash, root, pages, k, limit, tail);
    } else {
      TruncatedHint(state, hash, root, pages, k, limit, tail);
      PageIsEmptyIff(list[k + 1..], limit);
    }
  }

  // A directory whose second page has a number of 33 bits: going on after its first entry returns
  // nothing although another one follows.
  const WIDE_HASH: PageHash := (root: Key, page: nat) => if page == HINT_SPAN then 20 else 30
  const WIDE_STATE: State := map[
    10 := Data(Directory(true, [1], HINT_SPAN)),
    20 := Data(Directory(true, [2, 3], 0))]
  const WIDE_PAGES: seq<nat> := [0, HINT_SPAN]

  lemma WideHintIsLost(limit: nat)
    requires limit > 0
    ensures IsTail(WIDE_STATE, WIDE_HASH, 10, 0, WIDE_PAGES)
    ensures forall n: nat | PageKey(WIDE_HASH, 10, n) in WIDE_STATE :: n in WIDE_PAGES
    ensures Keys(Listed(WIDE_STATE, WIDE_HASH, 10, WIDE_PAGES)) == [1, 2, 3]
    ensures Listed(WIDE_STATE, WIDE_HASH, 10, WIDE_PAGES)[1] == Owned(HINT_SPAN, 2)
    ensures Traversal(WIDE_STATE, WIDE_HASH, 10, AccountCursor(2, HINT_SPAN % HINT_SPAN), limit, WIDE_PAGES)
      == Ok((NO_CURSOR, []))
  {
    assert LinkAt(WIDE_STATE, WIDE_HASH, 10, WIDE_PAGES, 0);
    assert LinkAt(WIDE_STATE, WIDE_HASH, 10, WIDE_PAGES, 1);
    var second := OnPage(WIDE_STATE, WIDE_HASH, 10, HINT_SPAN);
    assert OnPage(WIDE_STATE, WIDE_HASH, 10, 0) == [Owned(0, 1)];
    assert second == [Owned(HINT_SPAN, 2), Owned(HINT_SPAN, 3)];
    assert WIDE_PAGES[1..] == [HINT_SPAN];
    assert Listed(WIDE_STATE, WIDE_HASH, 10, [HINT_SPAN]) == second;
    assert Listed(WIDE_STATE, WIDE_HASH, 10, WIDE_PAGES) == [Owned(0, 1)] + second;
  }
}
