// Filling the NFT tables of an existing database (src/main/main.cpp), and checking the result
// (src/main/verify.cpp).
module Migration {
  import opened Wrappers
  import opened Sequences
  import opened Tables
  import opened Ledger
  import opened Pages
  import opened Backends
  import opened NFTHelpers
  import opened NFTStores

  const WRITE_BATCH: nat := 10000
  const VERIFY_BATCH: nat := 2000
  const MIGRATION_PAGE: nat := 10000
  const VERIFY_PAGE: nat := 2000

  // A transaction recorded in nf_token_transactions.
  datatype Tx = Tx(ledger: nat, mint: bool, success: bool, uri: Uri, nodes: seq<Node>)

  /* The records collected, on values */

  // Mints up to the newest ledger are reloaded.
  predicate Reloaded(tx: Tx, max: nat) {
    tx.ledger <= max && tx.mint
  }

  ghost predicate Recoverable(tx: Tx, max: nat) {
    Reloaded(tx, max) ==> tx.success && MintData(tx.nodes).Ok?
  }

  ghost predicate AllRecoverable(txs: seq<Tx>, max: nat) {
    txs == [] || (AllRecoverable(txs[..|txs| - 1], max) && Recoverable(txs[|txs| - 1], max))
  }

  lemma {:induction false} RecoverableAre(txs: seq<Tx>, max: nat)
    ensures AllRecoverable(txs, max) <==>
      forall tx | tx in txs && tx.mint && tx.ledger <= max :: tx.success && MintData(tx.nodes).Ok?
  {
    if txs != [] {
      var rest, last := txs[..|txs| - 1], txs[|txs| - 1];
      RecoverableAre(rest, max);
      assert forall tx :: tx in txs <==> tx in rest || tx == last;
    }
  }

  lemma {:induction false} OneIsNotRecoverable(txs: seq<Tx>, i: nat, max: nat)
    requires i < |txs| && !Recoverable(txs[i], max)
    ensures !AllRecoverable(txs, max)
  {
    if i < |txs| - 1 {
      OneIsNotRecoverable(txs[..|txs| - 1], i, max);
    }
  }

  ghost function MintRecords(txs: seq<Tx>, max: nat): seq<NFTsData> {
    if txs == [] then []
    else MintRecords(txs[..|txs| - 1], max) + MintRecordOf(txs[|txs| - 1], max)
  }

  ghost function MintRecordOf(tx: Tx, max: nat): seq<NFTsData> {
    if Reloaded(tx, max) && MintData(tx.nodes).Ok? then
      var (token, owner) := MintData(tx.nodes).value;
      [NFTsData(token, tx.ledger, owner, Some(tx.uri), false)]
    else
      []
  }

  predicate IsTokenPage(blob: Blob) {
    blob.Data? && blob.content.TokenPage?
  }

  // Every token of a page belongs to the page's owner.
  function ObjectRecords(ledger: nat, o: LedgerObject): seq<NFTsData> {
    if IsTokenPage(o.blob) then
      var tokens := o.blob.content.tokens;
      seq(|tokens|, i requires 0 <= i < |tokens| => NFTsData(tokens[i].id, ledger, Owner(o.key), Some(tokens[i].uri), false))
    else
      []
  }

  function PageRecords(ledger: nat, objs: seq<LedgerObject>): seq<NFTsData> {
    if objs == [] then [] else PageRecords(ledger, objs[..|objs| - 1]) + ObjectRecords(ledger, objs[|objs| - 1])
  }

  lemma {:induction false} PageRecordsConcat(ledger: nat, a: seq<LedgerObject>, b: seq<LedgerObject>)
    ensures PageRecords(ledger, a + b) == PageRecords(ledger, a) + PageRecords(ledger, b)
  {
    if b == [] {
      assert a + b == a;
    } else {
      var rest, last := b[..|b| - 1], b[|b| - 1];
      assert (a + b)[..|a + b| - 1] == a + rest;
      PageRecordsConcat(ledger, a, rest);
      Regroup(PageRecords(ledger, a), PageRecords(ledger, rest), ObjectRecords(ledger, last));
    }
  }

  lemma {:induction false} MintRecordsConcat(a: seq<Tx>, b: seq<Tx>, max: nat)
    ensures MintRecords(a + b, max) == MintRecords(a, max) + MintRecords(b, max)
  {
    if b == [] {
      assert a + b == a;
    } else {
      var rest, last := b[..|b| - 1], b[|b| - 1];
      assert (a + b)[..|a + b| - 1] == a + rest;
      MintRecordsConcat(a, rest, max);
      Regroup(MintRecords(a, max), MintRecords(rest, max), MintRecordOf(last, max));
    }
  }

  function AllTxs(pages: seq<seq<Tx>>): seq<Tx> {
    if pages == [] then [] else AllTxs(pages[..|pages| - 1]) + pages[|pages| - 1]
  }

  // The live objects of a ledger, in key order.
  function LedgerObjects(state: State): seq<LedgerObject>
    requires LAST_KEY !in state
  {
    ObjectsAt(state, KeysAfter(state.Keys, FIRST_KEY))
  }

  /* Batching */

  // Only the last batch of a step may be small.
  ghost predicate AllFull(batches: seq<seq<NFTsData>>) {
    forall i | 0 <= i < |batches| :: |batches[i]| >= WRITE_BATCH
  }

  lemma FlattenMore(batches: seq<seq<NFTsData>>, more: seq<NFTsData>)
    ensures Flatten(batches + [more]) == Flatten(batches) + more
  {
    assert (batches + [more])[..|batches|] == batches;
  }

  // The records were written once each, in order, in batches of which only the last may be small.
  ghost predicate WroteBatches(earlier: seq<seq<NFTsData>>, now: seq<seq<NFTsData>>, records: seq<NFTsData>) {
    && earlier <= now
    && var batches := now[|earlier|..];
       Flatten(batches) == records && forall i | 0 <= i < |batches| - 1 :: |batches[i]| >= WRITE_BATCH
  }

  // Everything collected is written once, in order, or still waits to be.
  ghost predicate CollectedAs(
    tables: NFTTables, now: seq<seq<NFTsData>>, start: NFTTables, earlier: seq<seq<NFTsData>>,
    records: seq<NFTsData>, toWrite: seq<NFTsData>)
  {
    && earlier <= now
    && var batches := now[|earlier|..];
       AllFull(batches) && records == Flatten(batches) + toWrite && tables == Written(start, Flatten(batches))
  }

  lemma CollectMore(
    tables: NFTTables, now: seq<seq<NFTsData>>, start: NFTTables, earlier: seq<seq<NFTsData>>,
    records: seq<NFTsData>, toWrite: seq<NFTsData>, more: seq<NFTsData>)
    requires CollectedAs(tables, now, start, earlier, records, toWrite)
    ensures CollectedAs(tables, now, start, earlier, records + more, toWrite + more)
  {
    Regroup(Flatten(now[|earlier|..]), toWrite, more);
  }

  lemma WriteWaiting(
    tables: NFTTables, now: seq<seq<NFTsData>>, start: NFTTables, earlier: seq<seq<NFTsData>>,
    records: seq<NFTsData>, toWrite: seq<NFTsData>)
    requires CollectedAs(tables, now, start, earlier, records, toWrite) && |toWrite| >= WRITE_BATCH
    ensures CollectedAs(Written(tables, toWrite), now + [toWrite], start, earlier, records, [])
  {
    var batches := now[|earlier|..];
    assert (now + [toWrite])[|earlier|..] == batches + [toWrite];
    FlattenMore(batches, toWrite);
    WriteMore(start, Flatten(batches), toWrite);
    assert records + [] == records;
  }

  class Migrator {
    const backend: Backend
    const store: NFTStore

    constructor (b: Backend, s: NFTStore)
      ensures backend == b && store == s
    {
      backend, store := b, s;
    }

    method DoNFTWrite(nfts: seq<NFTsData>) returns (rest: seq<NFTsData>)
      modifies store
      ensures rest == []
      ensures store.Tables() == Written(old(store.Tables()), nfts)
      ensures store.batches == old(store.batches) + if nfts == [] then [] else [nfts]
    {
      if |nfts| == 0 {
        return nfts;
      }
      store.WriteNFTs(nfts);
      rest := [];
    }

    method MaybeDoNFTWrite(nfts: seq<NFTsData>) returns (rest: seq<NFTsData>)
      modifies store
      ensures |nfts| < WRITE_BATCH ==>
        rest == nfts && store.Tables() == old(store.Tables()) && store.batches == old(store.batches)
      ensures |nfts| >= WRITE_BATCH ==>
        rest == [] && store.Tables() == Written(old(store.Tables()), nfts) && store.batches == old(store.batches) + [nfts]
    {
      if |nfts| < WRITE_BATCH {
        return nfts;
      }
      rest := DoNFTWrite(nfts);
    }

    ghost predicate Collected(
      start: NFTTables, earlier: seq<seq<NFTsData>>, records: seq<NFTsData>, toWrite: seq<NFTsData>)
      reads store
    {
      CollectedAs(store.Tables(), store.batches, start, earlier, records, toWrite)
    }

    // More records are collected and perhaps written.
    method Collect(toWrite: seq<NFTsData>, more: seq<NFTsData>, ghost start: NFTTables,
                   ghost earlier: seq<seq<NFTsData>>, ghost records: seq<NFTsData>)
      returns (rest: seq<NFTsData>)
      requires Collected(start, earlier, records, toWrite)
      modifies store
      ensures Collected(start, earlier, records + more, rest)
    {
      var all := toWrite + more;
      CollectMore(store.Tables(), store.batches, start, earlier, records, toWrite, more);
      if |all| >= WRITE_BATCH {
        WriteWaiting(store.Tables(), store.batches, start, earlier, records + more, all);
      }
      rest := MaybeDoNFTWrite(all);
    }

    // The last, possibly small, batch. Each record has then been written exactly once.
    method Finish(
      toWrite: seq<NFTsData>, ghost start: NFTTables, ghost earlier: seq<seq<NFTsData>>,
      ghost records: seq<NFTsData>)
      requires Collected(start, earlier, records, toWrite)
      modifies store
      ensures store.Tables() == Written(start, records)
      ensures WroteBatches(earlier, store.batches, records)
    {
      ghost var batches := store.batches[|earlier|..];
      var rest := DoNFTWrite(toWrite);
      WriteMore(start, Flatten(batches), toWrite);
      if toWrite == [] {
        assert store.batches[|earlier|..] == batches && Flatten(batches) == records;
      } else {
        assert store.batches[|earlier|..] == batches + [toWrite];
        FlattenMore(batches, toWrite);
      }
    }

    method CollectMints(txs: seq<Tx>, max: nat, toWrite: seq<NFTsData>, ghost start: NFTTables,
                        ghost earlier: seq<seq<NFTsData>>, ghost records: seq<NFTsData>)
      returns (ok: bool, rest: seq<NFTsData>, ghost records': seq<NFTsData>)
      requires Collected(start, earlier, records, toWrite)
      modifies store
      ensures ok <==> AllRecoverable(txs, max)
      ensures ok ==> records' == records + MintRecords(txs, max) && Collected(start, earlier, records', rest)
    {
      var more;
      ok, more := MintsOfPage(txs, max);
      rest, records' := toWrite, records;
      if ok {
        rest := Collect(toWrite, more, start, earlier, records);
        records' := records + more;
      }
    }

    method CollectPages(pages: seq<seq<Tx>>, max: nat, ghost start: NFTTables, ghost earlier: seq<seq<NFTsData>>)
      returns (ok: bool, toWrite: seq<NFTsData>)
      requires start == store.Tables() && earlier == store.batches
      modifies store
      ensures ok <==> forall p | 0 <= p < |pages| :: AllRecoverable(pages[p], max)
      ensures ok ==> Collected(start, earlier, MintRecords(AllTxs(pages), max), toWrite)
    {
      ok, toWrite := true, [];
      ghost var records: seq<NFTsData> := [];
      StartCollecting(start, earlier);
      for p := 0 to |pages|
        invariant ok && Collected(start, earlier, records, toWrite)
        invariant records == MintRecords(AllTxs(pages[..p]), max)
        invariant forall q | 0 <= q < p :: AllRecoverable(pages[q], max)
      {
        AllTxsStep(pages, p, max);
        ok, toWrite, records := CollectMints(pages[p], max, toWrite, start, earlier, records);
        if !ok {
          return;
        }
      }
      assert pages[..|pages|] == pages;
    }

    // Step 1: every mint recorded in nf_token_transactions, page by page.
    method StepOne(pages: seq<seq<Tx>>, max: nat) returns (ok: bool)
      modifies store
      ensures ok <==> forall p | 0 <= p < |pages| :: AllRecoverable(pages[p], max)
      ensures ok <==> forall p, tx | 0 <= p < |pages| && tx in pages[p] && tx.mint && tx.ledger <= max ::
        tx.success && MintData(tx.nodes).Ok?
      ensures ok ==> store.Tables() == Written(old(store.Tables()), MintRecords(AllTxs(pages), max))
      ensures ok ==> WroteBatches(old(store.batches), store.batches, MintRecords(AllTxs(pages), max))
    {
      ghost var start, earlier := store.Tables(), store.batches;
      var toWrite;
      ok, toWrite := CollectPages(pages, max, start, earlier);
      forall p | 0 <= p < |pages|
        ensures AllRecoverable(pages[p], max) <==>
          forall tx | tx in pages[p] && tx.mint && tx.ledger <= max :: tx.success && MintData(tx.nodes).Ok?
      {
        RecoverableAre(pages[p], max);
      }
      if ok {
        Finish(toWrite, start, earlier, MintRecords(AllTxs(pages), max));
      }
    }

    method MintsOfPage(txs: seq<Tx>, max: nat) returns (ok: bool, records: seq<NFTsData>)
      ensures ok <==> AllRecoverable(txs, max)
      ensures ok ==> records == MintRecords(txs, max)
    {
      records := [];
      for i := 0 to |txs|
        invariant records == MintRecords(txs[..i], max) && AllRecoverable(txs[..i], max)
      {
        var record;
        assert txs[..i + 1][..i] == txs[..i];
        ok, record := MintOf(txs[i], max);
        if !ok {
          OneIsNotRecoverable(txs, i, max);
          return;
        }
        records := records + record;
      }
      assert txs[..|txs|] == txs;
      ok := true;
    }

    method MintOf(tx: Tx, max: nat) returns (ok: bool, record: seq<NFTsData>)
      ensures ok <==> Recoverable(tx, max)
      ensures ok ==> record == MintRecordOf(tx, max)
    {
      if tx.ledger > max || !tx.mint {
        return true, [];
      }
      if !tx.success {
        return false, [];
      }
      var data := GetNFTokenMintData(tx.nodes);
      if data.Err? {
        return false, [];
      }
      return true, [NFTsData(data.value.0, tx.ledger, data.value.1, Some(tx.uri), false)];
    }

    // One page of a ledger, as records.
    method FetchRecords(cursor: Option<Key>, ledger: nat, limit: nat, ghost state: State, ghost seen: seq<LedgerObject>)
      returns (records: seq<NFTsData>, next: Option<Key>, ghost seen': seq<LedgerObject>)
      requires backend.ServesObjects(state, ledger) && backend.ServesSuccessors(state.Keys, ledger)
      requires (cursor.Some? ==> cursor.value in state) && limit > 0
      ensures PageRecords(ledger, seen') == PageRecords(ledger, seen) + records
      ensures seen' + Unseen(state, next, next.Some?, limit) == seen + Unseen(state, cursor, true, limit)
      ensures next.Some? ==> next.value in state && Above(state.Keys, next.value) < Above(state.Keys, StartOf(cursor))
    {
      NextPage(state, cursor, limit);
      var page := backend.FetchLedgerPage(cursor, ledger, limit, false, state.Keys, state);
      records := RecordsOf(page.objects, ledger);
      PageRecordsConcat(ledger, seen, page.objects);
      Regroup(seen, page.objects, Unseen(state, page.cursor, page.cursor.Some?, limit));
      next, seen' := page.cursor, seen + page.objects;
    }

    method CollectPage(
      cursor: Option<Key>, min: nat, toWrite: seq<NFTsData>, ghost state: State, ghost seen: seq<LedgerObject>,
                       ghost start: NFTTables, ghost earlier: seq<seq<NFTsData>>)
      returns (rest: seq<NFTsData>, next: Option<Key>, ghost seen': seq<LedgerObject>)
      requires backend.ServesObjects(state, min) && backend.ServesSuccessors(state.Keys, min)
      requires cursor.Some? ==> cursor.value in state
      requires Collected(start, earlier, PageRecords(min, seen), toWrite)
      modifies store
      ensures Collected(start, earlier, PageRecords(min, seen'), rest)
      ensures seen' + Unseen(state, next, next.Some?, MIGRATION_PAGE) == seen + Unseen(state, cursor, true, MIGRATION_PAGE)
      ensures next.Some? ==> next.value in state && Above(state.Keys, next.value) < Above(state.Keys, StartOf(cursor))
    {
      var records;
      records, next, seen' := FetchRecords(cursor, min, MIGRATION_PAGE, state, seen);
      rest := Collect(toWrite, records, start, earlier, PageRecords(min, seen));
    }

    // Step 2: every token on a page of the oldest ledger.
    method StepTwo(min: nat, ghost state: State)
      requires backend.ServesObjects(state, min) && backend.ServesSuccessors(state.Keys, min)
      modifies store
      ensures store.Tables() == Written(old(store.Tables()), PageRecords(min, LedgerObjects(state)))
      ensures WroteBatches(old(store.batches), store.batches, PageRecords(min, LedgerObjects(state)))
    {
      ghost var start, earlier := store.Tables(), store.batches;
      ghost var seen: seq<LedgerObject> := [];
      var toWrite: seq<NFTsData> := [];
      var cursor: Option<Key> := None;
      var more := true;
      StartCollecting(start, earlier);
      AllUnseen(state, MIGRATION_PAGE);
      while more
        invariant backend.ServesObjects(state, min) && backend.ServesSuccessors(state.Keys, min)
        invariant cursor.Some? ==> cursor.value in state
        invariant Collected(start, earlier, PageRecords(min, seen), toWrite)
        invariant seen + Unseen(state, cursor, more, MIGRATION_PAGE) == LedgerObjects(state)
        decreases more, Above(state.Keys, StartOf(cursor))
      {
        toWrite, cursor, seen := CollectPage(cursor, min, toWrite, state, seen, start, earlier);
        more := cursor.Some?;
      }
      assert seen == LedgerObjects(state);
      Finish(toWrite, start, earlier, PageRecords(min, seen));
    }

    method RecordsOf(objs: seq<LedgerObject>, ledger: nat) returns (records: seq<NFTsData>)
      ensures records == PageRecords(ledger, objs)
    {
      records := [];
      for i := 0 to |objs|
        invariant records == PageRecords(ledger, objs[..i])
      {
        assert objs[..i + 1][..i] == objs[..i];
        records := records + ObjectRecords(ledger, objs[i]);
      }
      assert objs[..|objs|] == objs;
    }

    // Dropping the old issuer table is not modelled. Nothing is done without a ledger range.
    method DoMigration(range: Option<LedgerRange>, pages: seq<seq<Tx>>, ghost state: State) returns (ok: bool)
      requires range.Some? ==>
        backend.ServesObjects(state, range.value.min) && backend.ServesSuccessors(state.Keys, range.value.min)
      modifies store
      ensures range.None? ==> ok && store.Tables() == old(store.Tables())
      ensures range.Some? ==> (ok <==> forall p | 0 <= p < |pages| :: AllRecoverable(pages[p], range.value.max))
      ensures range.Some? && ok ==>
        store.Tables() == Migrated(old(store.Tables()), AllTxs(pages), state, range.value.min, range.value.max)
    {
      if range.None? {
        return true;
      }
      ok := StepOne(pages, range.value.max);
      if ok {
        StepTwo(range.value.min, state);
      }
    }

    method VerifyNFTs(ledger: nat, nfts: seq<NFTsData>) returns (ok: bool)
      ensures ok <==> forall r | r in nfts :: RecordedWith(store.Tables(), r.token, ledger, UriOr(r.uri))
    {
      for i := 0 to |nfts|
        invariant forall j | 0 <= j < i :: RecordedWith(store.Tables(), nfts[j].token, ledger, UriOr(nfts[j].uri))
      {
        var written := store.FetchNFT(nfts[i].token, ledger);
        if written.None? || UriOr(nfts[i].uri) != written.value.uri {
          assert !RecordedWith(store.Tables(), nfts[i].token, ledger, UriOr(nfts[i].uri));
          return false;
        }
      }
      return true;
    }

    // Accepts exactly when every token on a page of the newest ledger has a record, and the page's
    // URI as its newest one, none standing for an empty one.
    method DoVerification(range: Option<LedgerRange>, ghost state: State) returns (ok: bool)
      requires range.Some? ==>
        backend.ServesObjects(state, range.value.max) && backend.ServesSuccessors(state.Keys, range.value.max)
      ensures range.None? ==> ok
      ensures range.Some? ==>
        var max, t := range.value.max, store.Tables();
        ok <==> forall token: TokenId, uri: Uri {:trigger OnPage(state, token, uri)} | OnPage(state, token, uri) ::
          && (exists s: nat :: s <= max && (token, s) in t.tokens)
          && (if SelectLatest(t.uris, token, max).None? then uri == [] else uri == SelectLatest(t.uris, token, max).value)
      // One token recorded with another URI, or without its own, is enough to reject.
      ensures range.Some? ==> forall token, uri | OnPage(state, token, uri) && uri != [] ::
        SelectLatest(store.uris, token, range.value.max) != Some(uri) ==> !ok
    {
      if range.None? {
        return true;
      }
      ok := VerifyPages(range.value.max, state);
      VerifiedAreTokens(store.Tables(), state, range.value.max);
    }

    // The records seen so far have been verified, or wait to be.
    ghost predicate Checked(records: seq<NFTsData>, toVerify: seq<NFTsData>, max: nat)
      reads store
    {
      && (forall r | r in records :: r in toVerify || Verified(store.Tables(), r, max))
      && (forall r | r in toVerify :: r in records)
    }

    // Verifies what waits when there is enough of it.
    method MaybeVerifyNFTs(toVerify: seq<NFTsData>, max: nat, ghost records: seq<NFTsData>)
      returns (ok: bool, rest: seq<NFTsData>)
      requires Checked(records, toVerify, max)
      ensures ok ==> Checked(records, rest, max)
      ensures !ok ==> exists r :: r in records && !Verified(store.Tables(), r, max)
    {
      if |toVerify| < VERIFY_BATCH {
        return true, toVerify;
      }
      ok := VerifyNFTs(max, toVerify);
      rest := [];
    }

    // The loop over the pages of the newest ledger.
    method VerifyPages(max: nat, ghost state: State) returns (ok: bool)
      requires backend.ServesObjects(state, max) && backend.ServesSuccessors(state.Keys, max)
      ensures ok <==> forall r | r in PageRecords(max, LedgerObjects(state)) :: Verified(store.Tables(), r, max)
    {
      ghost var seen: seq<LedgerObject> := [];
      var toVerify: seq<NFTsData> := [];
      var cursor: Option<Key> := None;
      var more := true;
      AllUnseen(state, VERIFY_PAGE);
      while more
        invariant cursor.Some? ==> cursor.value in state
        invariant Checked(PageRecords(max, seen), toVerify, max)
        invariant seen + Unseen(state, cursor, more, VERIFY_PAGE) == LedgerObjects(state)
        decreases more, Above(state.Keys, StartOf(cursor))
      {
        var records, next, seen' := FetchRecords(cursor, max, VERIFY_PAGE, state, seen);
        ok, toVerify := MaybeVerifyNFTs(toVerify + records, max, PageRecords(max, seen'));
        cursor, more, seen := next, next.Some?, seen';
        if !ok {
          PageRecordsConcat(max, seen, Unseen(state, cursor, more, VERIFY_PAGE));
          return;
        }
      }
      assert seen == LedgerObjects(state);
      ok := VerifyRest(toVerify, max, PageRecords(max, seen));
    }

    method VerifyRest(toVerify: seq<NFTsData>, max: nat, ghost records: seq<NFTsData>) returns (ok: bool)
      requires Checked(records, toVerify, max)
      ensures ok <==> forall r | r in records :: Verified(store.Tables(), r, max)
    {
      ok := VerifyNFTs(max, toVerify);
      if !ok {
        assert exists r :: r in toVerify && !Verified(store.Tables(), r, max);
      }
    }

    lemma StartCollecting(start: NFTTables, earlier: seq<seq<NFTsData>>)
      requires start == store.Tables() && earlier == store.batches
      ensures Collected(start, earlier, [], [])
    {
      assert store.batches[|earlier|..] == [];
    }
  }

  lemma AllTxsStep(pages: seq<seq<Tx>>, p: nat, max: nat)
    requires p < |pages|
    ensures MintRecords(AllTxs(pages[..p + 1]), max) == MintRecords(AllTxs(pages[..p]), max) + MintRecords(pages[p], max)
  {
    assert pages[..p + 1][..p] == pages[..p];
    MintRecordsConcat(AllTxs(pages[..p]), pages[p], max);
  }

  /* Paging through a ledger */

  function StartOf(cursor: Option<Key>): Key {
    if cursor.Some? then cursor.value else FIRST_KEY
  }

  // The objects on the pages still to come.
  function Unseen(state: State, cursor: Option<Key>, more: bool, limit: nat): seq<LedgerObject>
    requires LAST_KEY !in state && limit > 0
  {
    if more then AllPages(state.Keys, state, StartOf(cursor), limit) else []
  }

  lemma AllUnseen(state: State, limit: nat)
    requires Proper(state) && limit > 0
    ensures Unseen(state, None, true, limit) == LedgerObjects(state)
  {
    var keys := KeysAfter(state.Keys, FIRST_KEY);
    PagingIsLossless(state.Keys, state, FIRST_KEY, limit);
    KeysAfterIsSorted(state.Keys, FIRST_KEY);
    LiveObjects(state, keys);
  }

  lemma NextPage(state: State, cursor: Option<Key>, limit: nat)
    requires Proper(state) && limit > 0
    ensures var page := PageOver(state.Keys, state, StartOf(cursor), limit);
      && Unseen(state, cursor, true, limit) == page.objects + Unseen(state, page.cursor, page.cursor.Some?, limit)
      && (page.cursor.Some? ==> page.cursor.value in state)
      && (page.cursor.Some? ==> Above(state.Keys, page.cursor.value) < Above(state.Keys, StartOf(cursor)))
  {
    CursorAdvances(state.Keys, StartOf(cursor), limit);
    PageKeysCover(state.Keys, StartOf(cursor), limit);
  }

  /* The migration meets its verifier */

  // The tables after both steps.
  ghost function Migrated(tables: NFTTables, txs: seq<Tx>, state: State, min: nat, max: nat): NFTTables
    requires LAST_KEY !in state
  {
    Written(Written(tables, MintRecords(txs, max)), PageRecords(min, LedgerObjects(state)))
  }

  // The token has a record, and this is its newest URI.
  ghost predicate RecordedWith(tables: NFTTables, token: TokenId, ledger: nat, uri: Uri) {
    && (exists s: nat :: s <= ledger && (token, s) in tables.tokens)
    && (if SelectLatest(tables.uris, token, ledger).None? then uri == []
        else uri == SelectLatest(tables.uris, token, ledger).value)
  }

  ghost predicate Verified(tables: NFTTables, r: NFTsData, ledger: nat) {
    RecordedWith(tables, r.token, ledger, UriOr(r.uri))
  }

  ghost predicate OnPage(state: State, token: TokenId, uri: Uri) {
    exists k :: k in state && IsTokenPage(state[k]) && Token(token, uri) in state[k].content.tokens
  }

  ghost predicate Mints(tx: Tx, ledger: nat, token: TokenId, uri: Uri) {
    tx.mint && tx.ledger == ledger && tx.uri == uri && MintData(tx.nodes).Ok? && MintData(tx.nodes).value.0 == token
  }

  ghost predicate Minted(txs: seq<Tx>, ledger: nat, token: TokenId, uri: Uri) {
    exists tx :: tx in txs && Mints(tx, ledger, token, uri)
  }

  // As far as the code can tell: a token on a page was minted in this ledger, with this URI, or was
  // there before and was not minted again.
  ghost predicate EvolvesAt(history: seq<State>, txs: seq<Tx>, s: nat) {
    0 < s < |history| ==> forall token, uri | OnPage(history[s], token, uri) ::
      || Minted(txs, s, token, uri)
      || (OnPage(history[s - 1], token, uri) && forall other :: !Minted(txs, s, token, other))
  }

  ghost predicate MintedOnce(txs: seq<Tx>, s: nat) {
    forall token, a, b | Minted(txs, s, token, a) && Minted(txs, s, token, b) :: a == b
  }

  // What the migration goes by: the mints that the code recovers tell where every URI comes from.
  ghost predicate TracedHistory(history: seq<State>, txs: seq<Tx>, uris: Table<TokenId, Uri>, min: nat, max: nat) {
    && min <= max < |history|
    && (forall s | min <= s <= max :: Proper(history[s]))
    && (forall token, a, b | OnPage(history[min], token, a) && OnPage(history[min], token, b) :: a == b)
    && (forall s | min < s <= max :: EvolvesAt(history, txs, s))
    // At most one mint of an ID in a ledger.
    && (forall s | min < s <= max :: MintedOnce(txs, s))
    // Rows already there after the first ledger come from mints.
    && (forall token: TokenId, s: nat {:trigger (token, s) in uris} | (token, s) in uris && min < s <= max ::
          Minted(txs, s, token, uris[(token, s)]))
  }

  lemma {:induction false} MintRecordsAre(txs: seq<Tx>, max: nat, r: NFTsData)
    ensures r in MintRecords(txs, max) <==> exists tx :: tx in txs && r in MintRecordOf(tx, max)
  {
    if txs != [] {
      var rest, last := txs[..|txs| - 1], txs[|txs| - 1];
      MintRecordsAre(rest, max, r);
      assert forall tx :: tx in txs <==> tx in rest || tx == last;
    }
  }

  // The records of step 1 are what the code recovers of the mints up to the newest ledger.
  lemma RecordsAreRecovered(txs: seq<Tx>, max: nat, token: TokenId, ledger: nat, uri: Uri)
    ensures SomeSetsTo(MintRecords(txs, max), token, ledger, uri) <==> ledger <= max && Minted(txs, ledger, token, uri)
  {
    if ledger <= max && Minted(txs, ledger, token, uri) {
      var tx :| tx in txs && Mints(tx, ledger, token, uri);
      var r := MintRecordOf(tx, max)[0];
      MintRecordsAre(txs, max, r);
      assert r in MintRecords(txs, max) && Sets(r, token, ledger) && r.uri.value == uri;
    }
    if SomeSetsTo(MintRecords(txs, max), token, ledger, uri) {
      var r :| r in MintRecords(txs, max) && Sets(r, token, ledger) && r.uri.value == uri;
      MintRecordsAre(txs, max, r);
      var tx :| tx in txs && r in MintRecordOf(tx, max);
      assert Mints(tx, ledger, token, uri);
    }
  }

  lemma {:induction false} PageRecordsAre(ledger: nat, objs: seq<LedgerObject>, r: NFTsData)
    ensures r in PageRecords(ledger, objs) <==> exists o :: o in objs && r in ObjectRecords(ledger, o)
  {
    if objs != [] {
      var rest, last := objs[..|objs| - 1], objs[|objs| - 1];
      PageRecordsAre(ledger, rest, r);
      assert forall o :: o in objs <==> o in rest || o == last;
    }
  }

  lemma LedgerObjectsAre(state: State, o: LedgerObject)
    requires Proper(state)
    ensures o in LedgerObjects(state) <==> o.key in state && o.blob == state[o.key]
  {
    KeysAfterIsSorted(state.Keys, FIRST_KEY);
    ListedObjects(state, KeysAfter(state.Keys, FIRST_KEY));
  }

  lemma ObjectRecordsAre(ledger: nat, o: LedgerObject, token: TokenId, s: nat, uri: Uri)
    ensures SomeSetsTo(ObjectRecords(ledger, o), token, s, uri)
      <==> s == ledger && IsTokenPage(o.blob) && Token(token, uri) in o.blob.content.tokens
  {
    var records := ObjectRecords(ledger, o);
    if s == ledger && IsTokenPage(o.blob) && Token(token, uri) in o.blob.content.tokens {
      var i :| 0 <= i < |o.blob.content.tokens| && o.blob.content.tokens[i] == Token(token, uri);
      assert records[i] in records && Sets(records[i], token, s) && records[i].uri.value == uri;
    }
    if SomeSetsTo(records, token, s, uri) {
      var r :| r in records && Sets(r, token, s) && r.uri.value == uri;
      var i :| 0 <= i < |records| && records[i] == r;
      assert o.blob.content.tokens[i] == Token(token, uri);
    }
  }

  // The records of a ledger are the tokens on its pages.
  lemma PageRecordsAreTokens(state: State, ledger: nat, token: TokenId, s: nat, uri: Uri)
    requires Proper(state)
    ensures SomeSetsTo(PageRecords(ledger, LedgerObjects(state)), token, s, uri) <==> s == ledger && OnPage(state, token, uri)
  {
    var objs := LedgerObjects(state);
    var records := PageRecords(ledger, objs);
    if s == ledger && OnPage(state, token, uri) {
      var k :| k in state && IsTokenPage(state[k]) && Token(token, uri) in state[k].content.tokens;
      var o := LedgerObject(k, state[k]);
      LedgerObjectsAre(state, o);
      ObjectRecordsAre(ledger, o, token, s, uri);
      var r :| r in ObjectRecords(ledger, o) && Sets(r, token, s) && r.uri.value == uri;
      PageRecordsAre(ledger, objs, r);
      assert r in records;
    }
    if SomeSetsTo(records, token, s, uri) {
      var r :| r in records && Sets(r, token, s) && r.uri.value == uri;
      PageRecordsAre(ledger, objs, r);
      var o :| o in objs && r in ObjectRecords(ledger, o);
      LedgerObjectsAre(state, o);
      ObjectRecordsAre(ledger, o, token, s, uri);
      assert SomeSetsTo(ObjectRecords(ledger, o), token, s, uri);
    }
  }

  // Which of the two steps wrote a URI row, and from what.
  lemma RowSources(state: State, txs: seq<Tx>, min: nat, max: nat, token: TokenId, s: nat)
    requires Proper(state) && s <= max
    ensures var one, two := MintRecords(txs, max), PageRecords(min, LedgerObjects(state));
      && (forall uri :: SomeSetsTo(one, token, s, uri) <==> Minted(txs, s, token, uri))
      && (forall uri :: SomeSetsTo(two, token, s, uri) <==> s == min && OnPage(state, token, uri))
      && (SomeSets(one, token, s) <==> exists uri :: Minted(txs, s, token, uri))
      && (SomeSets(two, token, s) <==> s == min && exists uri :: OnPage(state, token, uri))
  {
    var one, two := MintRecords(txs, max), PageRecords(min, LedgerObjects(state));
    forall uri
      ensures SomeSetsTo(one, token, s, uri) <==> Minted(txs, s, token, uri)
      ensures SomeSetsTo(two, token, s, uri) <==> s == min && OnPage(state, token, uri)
    {
      RecordsAreRecovered(txs, max, token, s, uri);
      PageRecordsAreTokens(state, min, token, s, uri);
    }
    SetsSomething(one, token, s);
    SetsSomething(two, token, s);
  }

  // After the migration the oldest ledger's rows are its pages', and a later row is a mint's.
  lemma TracedRow(history: seq<State>, txs: seq<Tx>, tables: NFTTables, min: nat, max: nat, token: TokenId, s: nat)
    requires TracedHistory(history, txs, tables.uris, min, max) && min <= s <= max
    ensures var t := Migrated(tables, txs, history[min], min, max).uris;
      && (s > min && (token, s) in t ==> Minted(txs, s, token, t[(token, s)]))
      && (forall uri | Minted(txs, s, token, uri) :: (token, s) in t && (s > min ==> t[(token, s)] == uri))
      && (forall uri | s == min && OnPage(history[min], token, uri) :: (token, s) in t && t[(token, s)] == uri)
  {
    var one, two := MintRecords(txs, max), PageRecords(min, LedgerObjects(history[min]));
    UriRow(tables.uris, one, token, s);
    UriRow(WithUris(tables.uris, one), two, token, s);
    RowSources(history[min], txs, min, max, token, s);
    if s > min {
      assert MintedOnce(txs, s);
    }
  }

  lemma SetsSomething(records: seq<NFTsData>, token: TokenId, ledger: nat)
    ensures SomeSets(records, token, ledger) <==> exists uri :: SomeSetsTo(records, token, ledger, uri)
  {
    if SomeSets(records, token, ledger) {
      var r :| r in records && Sets(r, token, ledger);
      assert SomeSetsTo(records, token, ledger, r.uri.value);
    }
  }

  // Every URI row comes with a token row.
  lemma MigratedTokenRow(
    history: seq<State>, txs: seq<Tx>, tables: NFTTables, min: nat, max: nat, token: TokenId, s: nat, uri: Uri)
    requires TracedHistory(history, txs, tables.uris, min, max) && min <= s <= max
    requires Minted(txs, s, token, uri) || (s == min && OnPage(history[min], token, uri))
    ensures (token, s) in Migrated(tables, txs, history[min], min, max).tokens
  {
    var one, two := MintRecords(txs, max), PageRecords(min, LedgerObjects(history[min]));
    RecordsAreRecovered(txs, max, token, s, uri);
    PageRecordsAreTokens(history[min], min, token, s, uri);
    TokenRow(tables.tokens, one, token, s);
    TokenRow(WithTokens(tables.tokens, one), two, token, s);
  }

  // At every ledger of the range the newest URI row of a token on a page is that page's URI.
  lemma {:induction false} TracedUri(
    history: seq<State>, txs: seq<Tx>, tables: NFTTables, min: nat, max: nat, token: TokenId, s: nat, uri: Uri)
    requires TracedHistory(history, txs, tables.uris, min, max) && min <= s <= max
    requires OnPage(history[s], token, uri)
    ensures var t := Migrated(tables, txs, history[min], min, max);
      SelectLatest(t.uris, token, s) == Some(uri) && SelectLatest(t.tokens, token, s).Some?
    decreases s
  {
    TracedRow(history, txs, tables, min, max, token, s);
    if s == min || Minted(txs, s, token, uri) {
      MigratedTokenRow(history, txs, tables, min, max, token, s, uri);
    } else {
      assert EvolvesAt(history, txs, s);
      TracedUri(history, txs, tables, min, max, token, s - 1, uri);
    }
  }

  // The records of a ledger's pages are verified exactly when each token on a page has a record and
  // that page's URI.
  lemma VerifiedAreTokens(tables: NFTTables, state: State, ledger: nat)
    requires Proper(state)
    ensures (forall r | r in PageRecords(ledger, LedgerObjects(state)) :: Verified(tables, r, ledger))
      <==> forall token: TokenId, uri: Uri {:trigger OnPage(state, token, uri)} | OnPage(state, token, uri) ::
             RecordedWith(tables, token, ledger, uri)
  {
    var records := PageRecords(ledger, LedgerObjects(state));
    if forall r | r in records :: Verified(tables, r, ledger) {
      forall token: TokenId, uri: Uri {:trigger OnPage(state, token, uri)} | OnPage(state, token, uri)
        ensures RecordedWith(tables, token, ledger, uri)
      {
        PageRecordsAreTokens(state, ledger, token, ledger, uri);
        var r :| r in records && Sets(r, token, ledger) && r.uri.value == uri;
      }
    }
    if forall token: TokenId, uri: Uri {:trigger OnPage(state, token, uri)} | OnPage(state, token, uri) ::
        RecordedWith(tables, token, ledger, uri) {
      forall r | r in records ensures Verified(tables, r, ledger) {
        RecordIsOnPage(state, ledger, r);
      }
    }
  }

  lemma RecordIsOnPage(state: State, ledger: nat, r: NFTsData)
    requires Proper(state) && r in PageRecords(ledger, LedgerObjects(state))
    ensures r.ledger == ledger && r.uri.Some? && OnPage(state, r.token, r.uri.value)
  {
    PageRecordsAre(ledger, LedgerObjects(state), r);
    assert SomeSetsTo(PageRecords(ledger, LedgerObjects(state)), r.token, r.ledger, r.uri.value);
    PageRecordsAreTokens(state, ledger, r.token, r.ledger, r.uri.value);
  }

  lemma TracedMeetsVerifier(history: seq<State>, txs: seq<Tx>, tables: NFTTables, min: nat, max: nat)
    requires TracedHistory(history, txs, tables.uris, min, max)
    ensures forall token: TokenId, uri: Uri {:trigger OnPage(history[max], token, uri)} | OnPage(history[max], token, uri) ::
      RecordedWith(Migrated(tables, txs, history[min], min, max), token, max, uri)
  {
    var t := Migrated(tables, txs, history[min], min, max);
    forall token: TokenId, uri: Uri {:trigger OnPage(history[max], token, uri)} | OnPage(history[max], token, uri)
      ensures RecordedWith(t, token, max, uri)
    {
      TracedUri(history, txs, tables, min, max, token, max, uri);
      SelectLatestRow(t.tokens, token, max);
    }
  }

  /* Histories of token pages, one transaction after another */

  function Ids(tokens: seq<Token>): seq<TokenId> {
    seq(|tokens|, i requires 0 <= i < |tokens| => tokens[i].id)
  }

  // The IDs on each token page of a state.
  function TokenPages(state: State): NFTHelpers.Pages {
    map k | k in state && IsTokenPage(state[k]) :: Ids(state[k].content.tokens)
  }

  // A transaction, the token it adds if it is a mint, and the state after it.
  datatype Step = Step(tx: Tx, token: TokenId, after: State)

  // The pages of one account gain one token, as the metadata says.
  ghost predicate IsMint(tx: Tx, before: NFTHelpers.Pages, after: NFTHelpers.Pages, token: TokenId) {
    && tx.mint && tx.success
    && HonestNodes(tx.nodes, before, after)
    && AllTokens(after) == AllTokens(before) + multiset{token}
    && (forall i | 0 <= i < |tx.nodes| && tx.nodes[i].PageNode? :: !tx.nodes[i].kind.DeletedNode?)
    && (forall i, j | 0 <= i < j < |tx.nodes| && tx.nodes[i].PageNode? && tx.nodes[j].PageNode? ::
          Owner(tx.nodes[i].key) == Owner(tx.nodes[j].key))
  }

  // Only a mint brings a token, with its URI; whatever else happens, tokens stay or go.
  ghost predicate TrueStep(before: State, step: Step) {
    if step.tx.mint && step.tx.success then
      && IsMint(step.tx, TokenPages(before), TokenPages(step.after), step.token)
      && forall token, uri | OnPage(step.after, token, uri) ::
           if token == step.token then uri == step.tx.uri else OnPage(before, token, uri)
    else
      forall token, uri | OnPage(step.after, token, uri) :: OnPage(before, token, uri)
  }

  function AfterSteps(start: State, steps: seq<Step>): State {
    if steps == [] then start else steps[|steps| - 1].after
  }

  ghost predicate TrueSteps(start: State, steps: seq<Step>) {
    steps == [] || (
      var last := |steps| - 1;
      TrueSteps(start, steps[..last]) && TrueStep(AfterSteps(start, steps[..last]), steps[last]))
  }

  ghost predicate MintsIn(step: Step, token: TokenId, uri: Uri) {
    step.tx.mint && step.tx.success && step.token == token && step.tx.uri == uri
  }

  ghost predicate MintedBy(steps: seq<Step>, token: TokenId, uri: Uri) {
    exists step :: step in steps && MintsIn(step, token, uri)
  }

  // The transactions of one ledger, with at most one mint of an ID.
  ghost predicate TrueLedger(before: State, steps: seq<Step>, after: State, ledger: nat) {
    && TrueSteps(before, steps) && AfterSteps(before, steps) == after
    && (forall step | step in steps :: step.tx.ledger == ledger)
    && (forall token, a, b | MintedBy(steps, token, a) && MintedBy(steps, token, b) :: a == b)
  }

  // The list holds the ledger's mints and no others.
  ghost predicate ListsMints(txs: seq<Tx>, steps: seq<Step>, ledger: nat) {
    && (forall step | step in steps && step.tx.mint && step.tx.success :: step.tx in txs)
    && (forall tx | tx in txs && tx.mint && tx.ledger == ledger ::
          tx.success && exists step :: step in steps && step.tx == tx)
  }

  // A mint of some pages or other, as those listed from before the range are.
  ghost predicate SomeMint(tx: Tx) {
    exists before, after, token :: IsMint(tx, before, after, token)
  }

  // The history from `min` to `max`, the transactions of each of its ledgers, the list in
  // nf_token_transactions, and what the URI table held before.
  ghost predicate HonestHistory(
    history: seq<State>, ledgers: seq<seq<Step>>, txs: seq<Tx>, uris: Table<TokenId, Uri>, min: nat, max: nat)
  {
    && min <= max < |history| == |ledgers|
    && (forall s | min <= s <= max :: Proper(history[s]))
    && (forall token, a, b | OnPage(history[min], token, a) && OnPage(history[min], token, b) :: a == b)
    && (forall s: nat {:trigger LedgerAt(history, ledgers, txs, s)} | min < s <= max :: LedgerAt(history, ledgers, txs, s))
    && (forall tx | tx in txs && tx.mint && tx.ledger <= min :: SomeMint(tx))
    // Rows already there after the first ledger come from mints.
    && (forall token: TokenId, s: nat {:trigger (token, s) in uris} | (token, s) in uris && min < s <= max ::
          MintedBy(ledgers[s], token, uris[(token, s)]))
  }

  ghost predicate LedgerAt(history: seq<State>, ledgers: seq<seq<Step>>, txs: seq<Tx>, s: nat)
    requires |history| == |ledgers|
  {
    0 < s < |history| && TrueLedger(history[s - 1], ledgers[s], history[s], s) && ListsMints(txs, ledgers[s], s)
  }

  // What the code makes of such a mint is that token.
  lemma MintIsRead(tx: Tx, before: NFTHelpers.Pages, after: NFTHelpers.Pages, token: TokenId)
    requires IsMint(tx, before, after, token)
    ensures MintData(tx.nodes).Ok? && MintData(tx.nodes).value.0 == token
  {
    GainedIsMinted(tx.nodes, before, after, token);
    FirstPageIsPage(tx.nodes);
    assert token in Gained(tx.nodes);
    var page := FirstPage(tx.nodes).value;
    var i :| 0 <= i < |tx.nodes| && tx.nodes[i].PageNode? && tx.nodes[i].key == page;
    forall j | 0 <= j < |tx.nodes| && tx.nodes[j].PageNode? ensures Owner(tx.nodes[j].key) == Owner(page) {
      assert i < j || j < i || i == j;
    }
    MintIsRecovered(tx.nodes, before, after, token, Owner(page));
  }

  // The state before the step in the middle of a ledger.
  lemma {:induction false} StepIsTrue(start: State, steps: seq<Step>, step: Step) returns (before: State)
    requires TrueSteps(start, steps) && step in steps
    ensures TrueStep(before, step)
  {
    var last := |steps| - 1;
    if steps[last] == step {
      before := AfterSteps(start, steps[..last]);
    } else {
      before := StepIsTrue(start, steps[..last], step);
    }
  }

  lemma StepIsRead(start: State, steps: seq<Step>, step: Step)
    requires TrueSteps(start, steps) && step in steps && step.tx.mint && step.tx.success
    ensures MintData(step.tx.nodes).Ok? && MintData(step.tx.nodes).value.0 == step.token
  {
    var before := StepIsTrue(start, steps, step);
    MintIsRead(step.tx, TokenPages(before), TokenPages(step.after), step.token);
  }

  // Over a ledger's transactions a token on a page is minted among them, or was there before them
  // and is not.
  lemma {:induction false} StepsEvolve(start: State, steps: seq<Step>, token: TokenId, uri: Uri)
    requires TrueSteps(start, steps) && OnPage(AfterSteps(start, steps), token, uri)
    ensures MintedBy(steps, token, uri) || (OnPage(start, token, uri) && forall other :: !MintedBy(steps, token, other))
  {
    if steps != [] {
      var rest, last := steps[..|steps| - 1], steps[|steps| - 1];
      assert forall step :: step in steps <==> step in rest || step == last;
      if !MintsIn(last, token, uri) {
        StepsEvolve(start, rest, token, uri);
        forall other | MintedBy(steps, token, other) ensures MintedBy(rest, token, other) {
          assert !MintsIn(last, token, other);
        }
        if step :| step in rest && MintsIn(step, token, uri) {
          assert MintedBy(steps, token, uri);
        }
      }
    }
  }

  // The mints the code recovers in a ledger are the ledger's mints.
  lemma MintedIsTrue(history: seq<State>, ledgers: seq<seq<Step>>, txs: seq<Tx>, s: nat, token: TokenId, uri: Uri)
    requires |history| == |ledgers| && LedgerAt(history, ledgers, txs, s)
    ensures Minted(txs, s, token, uri) <==> MintedBy(ledgers[s], token, uri)
  {
    if Minted(txs, s, token, uri) {
      var tx :| tx in txs && Mints(tx, s, token, uri);
      var step :| step in ledgers[s] && step.tx == tx;
      StepIsRead(history[s - 1], ledgers[s], step);
      assert MintsIn(step, token, uri);
    }
    if MintedBy(ledgers[s], token, uri) {
      var step :| step in ledgers[s] && MintsIn(step, token, uri);
      StepIsRead(history[s - 1], ledgers[s], step);
      assert Mints(step.tx, s, token, uri);
    }
  }

  lemma LedgerEvolves(history: seq<State>, ledgers: seq<seq<Step>>, txs: seq<Tx>, s: nat)
    requires |history| == |ledgers| && LedgerAt(history, ledgers, txs, s)
    ensures EvolvesAt(history, txs, s) && MintedOnce(txs, s)
  {
    forall token, uri ensures Minted(txs, s, token, uri) <==> MintedBy(ledgers[s], token, uri) {
      MintedIsTrue(history, ledgers, txs, s, token, uri);
    }
    forall token, uri | OnPage(history[s], token, uri)
      ensures
        || Minted(txs, s, token, uri)
        || (OnPage(history[s - 1], token, uri) && forall other :: !Minted(txs, s, token, other))
    {
      StepsEvolve(history[s - 1], ledgers[s], token, uri);
    }
  }

  // So an honest history is one that the migration can go by.
  lemma HonestIsTraced(
    history: seq<State>, ledgers: seq<seq<Step>>, txs: seq<Tx>, uris: Table<TokenId, Uri>, min: nat, max: nat)
    requires HonestHistory(history, ledgers, txs, uris, min, max)
    ensures TracedHistory(history, txs, uris, min, max)
  {
    forall s: nat | min < s <= max ensures EvolvesAt(history, txs, s) && MintedOnce(txs, s) {
      assert LedgerAt(history, ledgers, txs, s);
      LedgerEvolves(history, ledgers, txs, s);
    }
    forall token: TokenId, s: nat {:trigger (token, s) in uris} | (token, s) in uris && min < s <= max
      ensures Minted(txs, s, token, uris[(token, s)])
    {
      assert LedgerAt(history, ledgers, txs, s);
      MintedIsTrue(history, ledgers, txs, s, token, uris[(token, s)]);
    }
  }

  // The records of step 1 are the mints of the ledgers after the oldest one, no more and no fewer.
  lemma MintRecordsAreMints(
    history: seq<State>, ledgers: seq<seq<Step>>, txs: seq<Tx>, uris: Table<TokenId, Uri>, min: nat, max: nat,
    token: TokenId, s: nat, uri: Uri)
    requires HonestHistory(history, ledgers, txs, uris, min, max) && min < s <= max
    ensures SomeSetsTo(MintRecords(txs, max), token, s, uri) <==> MintedBy(ledgers[s], token, uri)
  {
    assert LedgerAt(history, ledgers, txs, s);
    MintedIsTrue(history, ledgers, txs, s, token, uri);
    RecordsAreRecovered(txs, max, token, s, uri);
  }

  // After both steps a URI row of a ledger after the oldest one is that of its mint, and the oldest
  // ledger's rows are its pages'.
  lemma MigratedRow(
    history: seq<State>, ledgers: seq<seq<Step>>, txs: seq<Tx>, tables: NFTTables, min: nat, max: nat,
    token: TokenId, s: nat, uri: Uri)
    requires HonestHistory(history, ledgers, txs, tables.uris, min, max) && min <= s <= max
    ensures var t := Migrated(tables, txs, history[min], min, max).uris;
      && (s > min ==> ((token, s) in t && t[(token, s)] == uri <==> MintedBy(ledgers[s], token, uri)))
      && (s == min && OnPage(history[min], token, uri) ==> (token, s) in t && t[(token, s)] == uri)
  {
    HonestIsTraced(history, ledgers, txs, tables.uris, min, max);
    TracedRow(history, txs, tables, min, max, token, s);
    if s > min {
      assert LedgerAt(history, ledgers, txs, s);
      MintedIsTrue(history, ledgers, txs, s, token, uri);
    }
  }

  // At every ledger of the range the newest URI row of a token on a page is that page's URI.
  lemma UriIsCurrent(
    history: seq<State>, ledgers: seq<seq<Step>>, txs: seq<Tx>, tables: NFTTables, min: nat, max: nat,
    token: TokenId, s: nat, uri: Uri)
    requires HonestHistory(history, ledgers, txs, tables.uris, min, max) && min <= s <= max
    requires OnPage(history[s], token, uri)
    ensures var t := Migrated(tables, txs, history[min], min, max);
      SelectLatest(t.uris, token, s) == Some(uri) && SelectLatest(t.tokens, token, s).Some?
  {
    HonestIsTraced(history, ledgers, txs, tables.uris, min, max);
    TracedUri(history, txs, tables, min, max, token, s, uri);
  }

  // And every mint on the list can be read.
  lemma HonestIsRecoverable(
    history: seq<State>, ledgers: seq<seq<Step>>, txs: seq<Tx>, uris: Table<TokenId, Uri>, min: nat, max: nat, tx: Tx)
    requires HonestHistory(history, ledgers, txs, uris, min, max) && tx in txs
    ensures Recoverable(tx, max)
  {
    if Reloaded(tx, max) {
      if tx.ledger <= min {
        var before, after, token :| IsMint(tx, before, after, token);
        MintIsRead(tx, before, after, token);
      } else {
        assert LedgerAt(history, ledgers, txs, tx.ledger);
        var step :| step in ledgers[tx.ledger] && step.tx == tx;
        StepIsRead(history[tx.ledger - 1], ledgers[tx.ledger], step);
      }
    }
  }

  lemma {:induction false} EachRecoverable(txs: seq<Tx>, max: nat)
    requires forall tx | tx in txs :: Recoverable(tx, max)
    ensures AllRecoverable(txs, max)
  {
    if txs != [] {
      EachRecoverable(txs[..|txs| - 1], max);
    }
  }

  lemma {:induction false} PageTxs(pages: seq<seq<Tx>>, p: nat, tx: Tx)
    requires p < |pages| && tx in pages[p]
    ensures tx in AllTxs(pages)
  {
    if p < |pages| - 1 {
      PageTxs(pages[..|pages| - 1], p, tx);
    }
  }

  // For every honest history, over any ledgers and transactions, no mint is unreadable and the
  // verifier accepts what the migration wrote, re-minted tokens and tokens older than the range
  // included.
  lemma MigrationMeetsVerifier(
    history: seq<State>, ledgers: seq<seq<Step>>, pages: seq<seq<Tx>>, tables: NFTTables, min: nat, max: nat)
    requires HonestHistory(history, ledgers, AllTxs(pages), tables.uris, min, max)
    ensures forall p | 0 <= p < |pages| :: AllRecoverable(pages[p], max)
    ensures var t := Migrated(tables, AllTxs(pages), history[min], min, max);
      forall token: TokenId, uri: Uri {:trigger OnPage(history[max], token, uri)} | OnPage(history[max], token, uri) ::
        (exists s: nat :: s <= max && (token, s) in t.tokens) && SelectLatest(t.uris, token, max) == Some(uri)
  {
    HonestIsTraced(history, ledgers, AllTxs(pages), tables.uris, min, max);
    TracedMeetsVerifier(history, AllTxs(pages), tables, min, max);
    forall token: TokenId, uri: Uri {:trigger OnPage(history[max], token, uri)} | OnPage(history[max], token, uri)
      ensures SelectLatest(Migrated(tables, AllTxs(pages), history[min], min, max).uris, token, max) == Some(uri)
    {
      TracedUri(history, AllTxs(pages), tables, min, max, token, max, uri);
    }
    forall p | 0 <= p < |pages| ensures AllRecoverable(pages[p], max) {
      forall tx | tx in pages[p] ensures Recoverable(tx, max) {
        PageTxs(pages, p, tx);
        HonestIsRecoverable(history, ledgers, AllTxs(pages), tables.uris, min, max, tx);
      }
      EachRecoverable(pages[p], max);
    }
  }

  // The two programs, one after the other.
  method MigrateAndVerify(
    m: Migrator, range: LedgerRange, pages: seq<seq<Tx>>, ghost history: seq<State>, ghost ledgers: seq<seq<Step>>)
    returns (accepted: bool)
    requires HonestHistory(history, ledgers, AllTxs(pages), m.store.uris, range.min, range.max)
    requires m.backend.ServesObjects(history[range.min], range.min)
    requires m.backend.ServesSuccessors(history[range.min].Keys, range.min)
    requires m.backend.ServesObjects(history[range.max], range.max)
    requires m.backend.ServesSuccessors(history[range.max].Keys, range.max)
    modifies m.store
    ensures accepted
  {
    MigrationMeetsVerifier(history, ledgers, pages, m.store.Tables(), range.min, range.max);
    var ok := m.DoMigration(Some(range), pages, history[range.min]);
    accepted := m.DoVerification(Some(range), history[range.max]);
  }
}
