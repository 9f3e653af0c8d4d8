// What the migration leaves in the token table and in the issuer's list, in terms of the histories of
// token pages it migrates (src/main/main.cpp, over the writes of src/backend/CassandraBackend.cpp).
module MigratedTables {
  import opened Wrappers
  import opened Tables
  import opened Ledger
  import opened NFTHelpers
  import opened NFTStores
  import opened Migration

  // After the mint a page of this account, which the metadata lists, holds the token.
  ghost predicate MintedTo(step: Step, owner: Account) {
    exists k :: k in TokenPages(step.after) && HasPage(step.tx.nodes, k)
      && step.token in TokenPages(step.after)[k] && Owner(k) == owner
  }

  // The minted token is on one of the pages listed.
  lemma MintedPage(tx: Tx, before: NFTHelpers.Pages, after: NFTHelpers.Pages, token: TokenId) returns (k: Key)
    requires IsMint(tx, before, after, token)
    ensures k in after && HasPage(tx.nodes, k) && token in after[k]
  {
    GainedIsMinted(tx.nodes, before, after, token);
    assert token in Gained(tx.nodes);
    FinalIdsAre(tx.nodes, token);
    var i :| 0 <= i < |tx.nodes| && HasNow(tx.nodes[i], token);
    k := tx.nodes[i].key;
    assert HonestNode(tx.nodes[i], before, after);
  }

  lemma OneOwner(nodes: seq<Node>, i: int, k: Key)
    requires forall i, j | 0 <= i < j < |nodes| && nodes[i].PageNode? && nodes[j].PageNode? ::
      Owner(nodes[i].key) == Owner(nodes[j].key)
    requires IsFirstPage(nodes, i) && HasPage(nodes, k)
    ensures Owner(k) == Owner(nodes[i].key)
  {
    var j :| 0 <= j < |nodes| && nodes[j].PageNode? && nodes[j].key == k;
    assert i < j || i == j;
  }

  // So the account recovered owns all of them.
  lemma MintOwner(tx: Tx, before: NFTHelpers.Pages, after: NFTHelpers.Pages, token: TokenId, k: Key)
    requires IsMint(tx, before, after, token) && HasPage(tx.nodes, k)
    ensures MintData(tx.nodes) == Ok((token, Owner(k)))
  {
    MintIsRead(tx, before, after, token);
    FirstPageIs(tx.nodes);
    var f :| IsFirstPage(tx.nodes, f) && tx.nodes[f].key == FirstPage(tx.nodes).value;
    OneOwner(tx.nodes, f, k);
  }

  // The record of a mint: its token, its account, its URI, not burnt.
  ghost predicate IsRecordOf(r: NFTsData, step: Step) {
    && step.tx.mint && step.tx.success
    && r.token == step.token && r.ledger == step.tx.ledger && MintedTo(step, r.owner)
    && r.uri == Some(step.tx.uri) && !r.burned
  }

  lemma MintedToOwner(tx: Tx, before: NFTHelpers.Pages, step: Step, owner: Account)
    requires tx == step.tx && IsMint(tx, before, TokenPages(step.after), step.token)
    ensures MintedTo(step, owner) <==> MintData(tx.nodes) == Ok((step.token, owner))
    ensures MintData(tx.nodes).Ok? && tx.mint && tx.success
  {
    var pages := TokenPages(step.after);
    var k := MintedPage(tx, before, pages, step.token);
    MintOwner(tx, before, pages, step.token, k);
    if MintedTo(step, owner) {
      var l :| l in pages && HasPage(tx.nodes, l) && step.token in pages[l] && Owner(l) == owner;
      MintOwner(tx, before, pages, step.token, l);
    }
  }

  lemma RecordOfMint(step: Step, max: nat, r: NFTsData)
    requires step.tx.mint && step.tx.success && step.tx.ledger <= max
    requires MintData(step.tx.nodes).Ok? && MintData(step.tx.nodes).value.0 == step.token
    requires MintedTo(step, r.owner) <==> MintData(step.tx.nodes) == Ok((step.token, r.owner))
    ensures r in MintRecordOf(step.tx, max) <==> IsRecordOf(r, step)
  {
    var data := MintData(step.tx.nodes).value;
    assert r in MintRecordOf(step.tx, max) <==>
      r == NFTsData(data.0, step.tx.ledger, data.1, Some(step.tx.uri), false);
  }

  lemma StepRecord(start: State, steps: seq<Step>, step: Step, max: nat, r: NFTsData)
    requires TrueSteps(start, steps) && step in steps && step.tx.mint && step.tx.success && step.tx.ledger <= max
    ensures r in MintRecordOf(step.tx, max) <==> IsRecordOf(r, step)
  {
    StepIsRead(start, steps, step);
    var before := StepIsTrue(start, steps, step);
    MintedToOwner(step.tx, TokenPages(before), step, r.owner);
    RecordOfMint(step, max, r);
  }

  // The records of step 1 for a ledger are those of the ledger's mints, owners included.
  lemma MintRecordsInFull(
    history: seq<State>, ledgers: seq<seq<Step>>, txs: seq<Tx>, uris: Table<TokenId, Uri>, min: nat, max: nat, r: NFTsData)
    requires HonestHistory(history, ledgers, txs, uris, min, max) && min < r.ledger <= max
    ensures r in MintRecords(txs, max) <==> exists step :: step in ledgers[r.ledger] && IsRecordOf(r, step)
  {
    assert LedgerAt(history, ledgers, txs, r.ledger);
    LedgerRecords(history[r.ledger - 1], ledgers[r.ledger], history[r.ledger], txs, max, r);
  }

  lemma LedgerRecords(before: State, steps: seq<Step>, after: State, txs: seq<Tx>, max: nat, r: NFTsData)
    requires TrueLedger(before, steps, after, r.ledger) && ListsMints(txs, steps, r.ledger) && r.ledger <= max
    ensures r in MintRecords(txs, max) <==> exists step :: step in steps && IsRecordOf(r, step)
  {
    MintRecordsAre(txs, max, r);
    if r in MintRecords(txs, max) {
      var tx :| tx in txs && r in MintRecordOf(tx, max);
      RecordHasStep(before, steps, txs, tx, max, r);
    }
    if step :| step in steps && IsRecordOf(r, step) {
      StepRecord(before, steps, step, max, r);
      assert step.tx in txs;
    }
  }

  lemma RecordHasStep(before: State, steps: seq<Step>, txs: seq<Tx>, tx: Tx, max: nat, r: NFTsData)
    requires TrueSteps(before, steps) && ListsMints(txs, steps, r.ledger)
    requires tx in txs && r in MintRecordOf(tx, max)
    ensures exists step :: step in steps && IsRecordOf(r, step)
  {
    var step :| step in steps && step.tx == tx;
    StepRecord(before, steps, step, max, r);
  }

  // The token is on this page, with this URI.
  ghost predicate HoldsOn(state: State, k: Key, token: TokenId, uri: Uri) {
    k in state && IsTokenPage(state[k]) && Token(token, uri) in state[k].content.tokens
  }

  lemma ObjectRecordsInFull(ledger: nat, o: LedgerObject, r: NFTsData)
    ensures r in ObjectRecords(ledger, o) <==> (
      && r.uri.Some? && IsTokenPage(o.blob) && Token(r.token, r.uri.value) in o.blob.content.tokens
      && r.ledger == ledger && r.owner == Owner(o.key) && !r.burned)
  {
    var records := ObjectRecords(ledger, o);
    if r in records {
      var i :| 0 <= i < |records| && records[i] == r;
      assert o.blob.content.tokens[i] == Token(r.token, r.uri.value);
    }
    if r.uri.Some? && IsTokenPage(o.blob) && Token(r.token, r.uri.value) in o.blob.content.tokens
       && r.ledger == ledger && r.owner == Owner(o.key) && !r.burned {
      var i :| 0 <= i < |o.blob.content.tokens| && o.blob.content.tokens[i] == Token(r.token, r.uri.value);
      assert records[i] == r;
    }
  }

  // The records of a ledger's pages: each token belongs to the owner of its page and is not burnt.
  lemma PageRecordsInFull(state: State, ledger: nat, r: NFTsData)
    requires Proper(state)
    ensures r in PageRecords(ledger, LedgerObjects(state)) <==> (
      && r.ledger == ledger && !r.burned && r.uri.Some?
      && exists k :: HoldsOn(state, k, r.token, r.uri.value) && r.owner == Owner(k))
  {
    var objs := LedgerObjects(state);
    PageRecordsAre(ledger, objs, r);
    if r in PageRecords(ledger, objs) {
      var o :| o in objs && r in ObjectRecords(ledger, o);
      LedgerObjectsAre(state, o);
      ObjectRecordsInFull(ledger, o, r);
      assert HoldsOn(state, o.key, r.token, r.uri.value);
    }
    if r.ledger == ledger && !r.burned && r.uri.Some?
       && exists k :: HoldsOn(state, k, r.token, r.uri.value) && r.owner == Owner(k) {
      var k :| HoldsOn(state, k, r.token, r.uri.value) && r.owner == Owner(k);
      var o := LedgerObject(k, state[k]);
      LedgerObjectsAre(state, o);
      ObjectRecordsInFull(ledger, o, r);
    }
  }

  // How many tokens the pages among these objects hold.
  function TokensOn(objs: seq<LedgerObject>): nat {
    if objs == [] then 0
    else
      var blob := objs[|objs| - 1].blob;
      TokensOn(objs[..|objs| - 1]) + if blob.Data? && blob.content.TokenPage? then |blob.content.tokens| else 0
  }

  // How many transactions are mints up to this ledger.
  function MintsUpTo(txs: seq<Tx>, max: nat): nat {
    if txs == [] then 0
    else
      var tx := txs[|txs| - 1];
      MintsUpTo(txs[..|txs| - 1], max) + if tx.mint && tx.ledger <= max then 1 else 0
  }

  // There is one record for each token on a page, and one for each mint.
  lemma {:induction false} OneRecordForEachToken(ledger: nat, objs: seq<LedgerObject>)
    ensures |PageRecords(ledger, objs)| == TokensOn(objs)
  {
    if objs != [] {
      OneRecordForEachToken(ledger, objs[..|objs| - 1]);
    }
  }

  lemma {:induction false} OneRecordForEachMint(txs: seq<Tx>, max: nat)
    requires AllRecoverable(txs, max)
    ensures |MintRecords(txs, max)| == MintsUpTo(txs, max)
  {
    if txs != [] {
      OneRecordForEachMint(txs[..|txs| - 1], max);
    }
  }

  /* The token table */

  // The row of a token that a ledger of the range minted: its new owner's, not burnt.
  ghost predicate MintRow(steps: seq<Step>, token: TokenId, row: NFTRow) {
    && !row.burned
    && exists step :: step in steps && step.tx.mint && step.tx.success && step.token == token
         && row.ledger == step.tx.ledger && MintedTo(step, row.owner)
  }

  // The row of a token that was there when the range began.
  ghost predicate PageRow(state: State, ledger: nat, token: TokenId, row: NFTRow) {
    row.ledger == ledger && !row.burned && exists k, uri :: HoldsOn(state, k, token, uri) && row.owner == Owner(k)
  }

  lemma MintNamed(
    history: seq<State>, ledgers: seq<seq<Step>>, txs: seq<Tx>, uris: Table<TokenId, Uri>, min: nat, max: nat,
    token: TokenId, s: nat)
    requires HonestHistory(history, ledgers, txs, uris, min, max) && min < s <= max
    ensures SomeNames(MintRecords(txs, max), token, s) <==> exists uri :: MintedBy(ledgers[s], token, uri)
    ensures forall row | SomeNamesAs(MintRecords(txs, max), token, s, row) :: MintRow(ledgers[s], token, row)
  {
    var records := MintRecords(txs, max);
    forall r | r in records && Names(r, token, s)
      ensures MintRow(ledgers[s], token, NFTRow(s, r.owner, r.burned)) && exists uri :: MintedBy(ledgers[s], token, uri)
    {
      MintRecordsInFull(history, ledgers, txs, uris, min, max, r);
      var step :| step in ledgers[s] && IsRecordOf(r, step);
      assert MintsIn(step, token, step.tx.uri);
      assert MintedBy(ledgers[s], token, step.tx.uri);
    }
    if uri :| MintedBy(ledgers[s], token, uri) {
      MintRecordsAreMints(history, ledgers, txs, uris, min, max, token, s, uri);
      var r :| r in records && Sets(r, token, s) && r.uri.value == uri;
      assert Names(r, token, s);
    }
  }

  lemma PageNamed(state: State, ledger: nat, token: TokenId, s: nat)
    requires Proper(state)
    ensures SomeNames(PageRecords(ledger, LedgerObjects(state)), token, s)
      <==> s == ledger && exists uri :: OnPage(state, token, uri)
    ensures forall row | SomeNamesAs(PageRecords(ledger, LedgerObjects(state)), token, s, row) ::
      PageRow(state, ledger, token, row)
  {
    var records := PageRecords(ledger, LedgerObjects(state));
    forall r | r in records && Names(r, token, s)
      ensures s == ledger && PageRow(state, ledger, token, NFTRow(s, r.owner, r.burned))
      ensures exists uri :: OnPage(state, token, uri)
    {
      PageRecordsInFull(state, ledger, r);
      assert OnPage(state, token, r.uri.value);
    }
    if s == ledger && exists uri :: OnPage(state, token, uri) {
      var uri :| OnPage(state, token, uri);
      PageRecordsAreTokens(state, ledger, token, ledger, uri);
      var r :| r in records && Sets(r, token, ledger) && r.uri.value == uri;
      assert Names(r, token, s);
    }
  }

  // After both steps a token has a row at each ledger of the range that minted it, and at the
  // oldest one if it is on a page there; each names the account whose page holds the token. Other
  // rows of later ledgers are as they were.
  lemma MigratedToken(
    history: seq<State>, ledgers: seq<seq<Step>>, txs: seq<Tx>, tables: NFTTables, min: nat, max: nat,
    token: TokenId, s: nat)
    requires HonestHistory(history, ledgers, txs, tables.uris, min, max) && min <= s <= max
    ensures var t, p := Migrated(tables, txs, history[min], min, max).tokens, (token, s);
      && (s > min && (exists uri :: MintedBy(ledgers[s], token, uri)) ==> p in t && MintRow(ledgers[s], token, t[p]))
      && (s > min && (forall uri :: !MintedBy(ledgers[s], token, uri)) ==>
            (p in t <==> p in tables.tokens) && (p in t ==> t[p] == tables.tokens[p]))
      && (s == min && (exists uri :: OnPage(history[min], token, uri)) ==> p in t && PageRow(history[min], min, token, t[p]))
  {
    var one, two := MintRecords(txs, max), PageRecords(min, LedgerObjects(history[min]));
    TokenRow(tables.tokens, one, token, s);
    TokenRow(WithTokens(tables.tokens, one), two, token, s);
    PageNamed(history[min], min, token, s);
    if s > min {
      MintNamed(history, ledgers, txs, tables.uris, min, max, token, s);
    }
  }

  /* The issuers' list */

  lemma PageIssues(state: State, ledger: nat, token: TokenId)
    requires Proper(state)
    ensures Issues(PageRecords(ledger, LedgerObjects(state)), token) <==> exists uri :: OnPage(state, token, uri)
  {
    var records := PageRecords(ledger, LedgerObjects(state));
    if r :| r in records && r.token == token && r.uri.Some? {
      RecordIsOnPage(state, ledger, r);
    }
    if uri :| OnPage(state, token, uri) {
      PageRecordsAreTokens(state, ledger, token, ledger, uri);
      var r :| r in records && Sets(r, token, ledger) && r.uri.value == uri;
    }
  }

  lemma MintIssues(txs: seq<Tx>, max: nat, token: TokenId)
    ensures Issues(MintRecords(txs, max), token)
      <==> exists s: nat, uri: Uri {:trigger Minted(txs, s, token, uri)} :: s <= max && Minted(txs, s, token, uri)
  {
    var records := MintRecords(txs, max);
    if r :| r in records && r.token == token && r.uri.Some? {
      assert Sets(r, token, r.ledger) && SomeSetsTo(records, token, r.ledger, r.uri.value);
      RecordsAreRecovered(txs, max, token, r.ledger, r.uri.value);
    }
    if s: nat, uri: Uri :| s <= max && Minted(txs, s, token, uri) {
      RecordsAreRecovered(txs, max, token, s, uri);
      var r :| r in records && Sets(r, token, s) && r.uri.value == uri;
    }
  }

  // After both steps exactly those tokens are listed under their issuers that were so before, that
  // a transaction up to the newest ledger minted, or that were on a page of the oldest one.
  lemma MigratedIssued(state: State, txs: seq<Tx>, tables: NFTTables, min: nat, max: nat, token: TokenId)
    requires Proper(state)
    ensures token in Migrated(tables, txs, state, min, max).issued <==> (
      || token in tables.issued
      || (exists s: nat, uri: Uri {:trigger Minted(txs, s, token, uri)} :: s <= max && Minted(txs, s, token, uri))
      || exists uri :: OnPage(state, token, uri))
  {
    var one, two := MintRecords(txs, max), PageRecords(min, LedgerObjects(state));
    IssuedAre(tables, one, two, token);
    MintIssues(txs, max, token);
    PageIssues(state, min, token);
  }

  lemma {:induction false} TracedIsIssued(
    history: seq<State>, txs: seq<Tx>, tables: NFTTables, min: nat, max: nat, token: TokenId, s: nat, uri: Uri)
    requires TracedHistory(history, txs, tables.uris, min, max) && min <= s <= max && OnPage(history[s], token, uri)
    ensures (exists t: nat, u: Uri {:trigger Minted(txs, t, token, u)} :: t <= max && Minted(txs, t, token, u))
      || exists u :: OnPage(history[min], token, u)
    decreases s
  {
    if s > min {
      assert EvolvesAt(history, txs, s);
      if !Minted(txs, s, token, uri) {
        TracedIsIssued(history, txs, tables, min, max, token, s - 1, uri);
      }
    }
  }

  // So every token that is on a page of any ledger of the range is listed.
  lemma EveryTokenIsIssued(
    history: seq<State>, ledgers: seq<seq<Step>>, txs: seq<Tx>, tables: NFTTables, min: nat, max: nat,
    token: TokenId, s: nat, uri: Uri)
    requires HonestHistory(history, ledgers, txs, tables.uris, min, max) && min <= s <= max
    requires OnPage(history[s], token, uri)
    ensures token in Migrated(tables, txs, history[min], min, max).issued
  {
    HonestIsTraced(history, ledgers, txs, tables.uris, min, max);
    TracedIsIssued(history, txs, tables, min, max, token, s, uri);
    MigratedIssued(history[min], txs, tables, min, max, token);
  }
}
