// Directories: a root page and further pages linked by number.
module Directories {
  import opened Ledger
  import opened Sequences

  // Keys of numbered pages come from a hash of the root and the number.
  type PageHash = (Key, nat) -> Key

  function PageKey(pageHash: PageHash, root: Key, page: nat): Key {
    if page == 0 then root else pageHash(root, page)
  }

  ghost predicate IsDirectory(state: State, key: Key) {
    key in state && state[key].Data? && state[key].content.Directory?
  }

  // The i-th page of the list is a directory page and links to the one after it, or to none.
  ghost predicate LinkAt(state: State, pageHash: PageHash, root: Key, pages: seq<nat>, i: nat)
    requires i < |pages|
  {
    var key := PageKey(pageHash, root, pages[i]);
    && IsDirectory(state, key)
    && (i > 0 ==> pages[i] != 0)
    && state[key].content.next == if i + 1 < |pages| then pages[i + 1] else 0
  }

  // `pages` lists the page numbers reached from the root by following the links to the end.
  ghost predicate IsChain(state: State, pageHash: PageHash, root: Key, pages: seq<nat>) {
    && |pages| > 0 && pages[0] == 0
    && forall i: nat {:trigger LinkAt(state, pageHash, root, pages, i)} | i < |pages| ::
         LinkAt(state, pageHash, root, pages, i)
  }

  ghost function Indexes(state: State, key: Key): seq<Key> {
    if IsDirectory(state, key) then state[key].content.indexes else []
  }

  // The indexes held by the pages, in order.
  ghost function Entries(state: State, pageHash: PageHash, root: Key, pages: seq<nat>): seq<Key> {
    if pages == [] then []
    else Indexes(state, PageKey(pageHash, root, pages[0])) + Entries(state, pageHash, root, pages[1..])
  }

  /* Where each entry is */

  // How many entries the pages hold.
  ghost function Count(state: State, pageHash: PageHash, root: Key, pages: seq<nat>): nat {
    if pages == [] then 0
    else
      var last := |pages| - 1;
      Count(state, pageHash, root, pages[..last]) + |Indexes(state, PageKey(pageHash, root, pages[last]))|
  }

  lemma {:induction false} EntriesConcat(state: State, pageHash: PageHash, root: Key, a: seq<nat>, b: seq<nat>)
    ensures Entries(state, pageHash, root, a + b) == Entries(state, pageHash, root, a) + Entries(state, pageHash, root, b)
  {
    if a == [] {
      assert a + b == b;
    } else {
      EntriesConcat(state, pageHash, root, a[1..], b);
      assert (a + b)[1..] == a[1..] + b;
    }
  }

  lemma {:induction false} EntriesCounted(state: State, pageHash: PageHash, root: Key, pages: seq<nat>)
    ensures |Entries(state, pageHash, root, pages)| == Count(state, pageHash, root, pages)
  {
    if pages != [] {
      var last := |pages| - 1;
      EntriesCounted(state, pageHash, root, pages[..last]);
      EntriesConcat(state, pageHash, root, pages[..last], [pages[last]]);
      assert pages == pages[..last] + [pages[last]] && [pages[last]][1..] == [];
    }
  }

  // The pages before one of them, that page, and the pages after it.
  lemma EntriesAround(state: State, pageHash: PageHash, root: Key, pages: seq<nat>, j: nat)
    requires j < |pages|
    ensures Entries(state, pageHash, root, pages)
      == Entries(state, pageHash, root, pages[..j]) + Indexes(state, PageKey(pageHash, root, pages[j]))
       + Entries(state, pageHash, root, pages[j + 1..])
  {
    EntriesConcat(state, pageHash, root, pages[..j], pages[j..]);
    assert pages == pages[..j] + pages[j..];
    assert pages[j..][1..] == pages[j + 1..];
    Regroup(
      Entries(state, pageHash, root, pages[..j]), Indexes(state, PageKey(pageHash, root, pages[j])),
      Entries(state, pageHash, root, pages[j + 1..]));
  }

  lemma InMiddle(before: seq<Key>, here: seq<Key>, after: seq<Key>, m: nat)
    requires m < |here|
    ensures (before + here + after)[|before| + m] == here[m]
  {
  }

  // The m-th index of the j-th page comes after all indexes of the pages before it, and after the
  // indexes before it on its own page.
  lemma EntryAt(state: State, pageHash: PageHash, root: Key, pages: seq<nat>, j: nat, m: nat)
    requires j < |pages| && m < |Indexes(state, PageKey(pageHash, root, pages[j]))|
    ensures var all, at := Entries(state, pageHash, root, pages), Count(state, pageHash, root, pages[..j]) + m;
      at < |all| && all[at] == Indexes(state, PageKey(pageHash, root, pages[j]))[m]
  {
    EntriesCounted(state, pageHash, root, pages[..j]);
    EntriesAround(state, pageHash, root, pages, j);
    InMiddle(
      Entries(state, pageHash, root, pages[..j]), Indexes(state, PageKey(pageHash, root, pages[j])),
      Entries(state, pageHash, root, pages[j + 1..]), m);
  }

  // Nothing else is listed.
  lemma {:induction false} EntryFrom(state: State, pageHash: PageHash, root: Key, pages: seq<nat>, key: Key)
    requires key in Entries(state, pageHash, root, pages)
    ensures exists p :: p in pages && key in Indexes(state, PageKey(pageHash, root, p))
  {
    if key !in Indexes(state, PageKey(pageHash, root, pages[0])) {
      EntryFrom(state, pageHash, root, pages[1..], key);
    }
  }
}
