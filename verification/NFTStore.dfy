// The NFT tables (src/backend/CassandraBackend.cpp, writeNFTs and fetchNFT).
module NFTStores {
  import opened Wrappers
  import opened Tables
  import opened Ledger
  import opened NFTHelpers

  // A record of an NFT at a ledger. Its URI is set by mints and by pages of ledger state, even when empty.
  datatype NFTsData = NFTsData(token: TokenId, ledger: nat, owner: Account, uri: Option<Uri>, burned: bool)

  datatype NFTRow = NFTRow(ledger: nat, owner: Account, burned: bool)

  datatype NFT = NFT(token: TokenId, ledger: nat, uri: Uri, owner: Account, burned: bool)

  /* What writing records does, on values */

  function WithTokens(table: Table<TokenId, NFTRow>, records: seq<NFTsData>): Table<TokenId, NFTRow> {
    if records == [] then table
    else
      var r := records[|records| - 1];
      WithTokens(table, records[..|records| - 1])[(r.token, r.ledger) := NFTRow(r.ledger, r.owner, r.burned)]
  }

  function WithUris(table: Table<TokenId, Uri>, records: seq<NFTsData>): Table<TokenId, Uri> {
    if records == [] then table
    else
      var r := records[|records| - 1];
      var before := WithUris(table, records[..|records| - 1]);
      if r.uri.Some? then before[(r.token, r.ledger) := r.uri.value] else before
  }

  function WithIssued(issued: set<TokenId>, records: seq<NFTsData>): set<TokenId> {
    issued + set r | r in records && r.uri.Some? :: r.token
  }

  // The three tables; tokens are listed under their issuer and taxon, both of which are part of the ID.
  datatype NFTTables = NFTTables(tokens: Table<TokenId, NFTRow>, uris: Table<TokenId, Uri>, issued: set<TokenId>)

  function Written(tables: NFTTables, records: seq<NFTsData>): NFTTables {
    NFTTables(WithTokens(tables.tokens, records), WithUris(tables.uris, records), WithIssued(tables.issued, records))
  }

  // Writing one list after another is writing both.
  lemma {:induction false} WriteMore(tables: NFTTables, a: seq<NFTsData>, b: seq<NFTsData>)
    ensures Written(Written(tables, a), b) == Written(tables, a + b)
  {
    if b == [] {
      assert a + b == a;
    } else {
      assert (a + b)[..|a + b| - 1] == a + b[..|b| - 1];
      WriteMore(tables, a, b[..|b| - 1]);
    }
  }

  ghost predicate Sets(r: NFTsData, token: TokenId, ledger: nat) {
    r.token == token && r.ledger == ledger && r.uri.Some?
  }

  ghost predicate SomeSets(records: seq<NFTsData>, token: TokenId, ledger: nat) {
    exists r :: r in records && Sets(r, token, ledger)
  }

  ghost predicate SomeSetsTo(records: seq<NFTsData>, token: TokenId, ledger: nat, uri: Uri) {
    exists r :: r in records && Sets(r, token, ledger) && r.uri.value == uri
  }

  // Rows that some record sets hold what one of them says, and the others are untouched.
  lemma {:induction false} UriRow(table: Table<TokenId, Uri>, records: seq<NFTsData>, token: TokenId, ledger: nat)
    ensures var t, p := WithUris(table, records), (token, ledger);
      && (SomeSets(records, token, ledger) ==> p in t && SomeSetsTo(records, token, ledger, t[p]))
      && (!SomeSets(records, token, ledger) ==> (p in t <==> p in table) && (p in t ==> t[p] == table[p]))
  {
    if records != [] {
      var rest, last := records[..|records| - 1], records[|records| - 1];
      UriRow(table, rest, token, ledger);
      if Sets(last, token, ledger) {
        assert last in records;
      } else {
        assert forall r :: r in records <==> r in rest || r == last;
        assert SomeSets(records, token, ledger) <==> SomeSets(rest, token, ledger);
      }
    }
  }

  ghost predicate Names(r: NFTsData, token: TokenId, ledger: nat) {
    r.token == token && r.ledger == ledger
  }

  ghost predicate SomeNames(records: seq<NFTsData>, token: TokenId, ledger: nat) {
    exists r :: r in records && Names(r, token, ledger)
  }

  ghost predicate SomeNamesAs(records: seq<NFTsData>, token: TokenId, ledger: nat, row: NFTRow) {
    exists r :: r in records && Names(r, token, ledger) && row == NFTRow(ledger, r.owner, r.burned)
  }

  // A token's row at a ledger holds the owner and the burn flag of one of its records for that
  // ledger; a row without a record is untouched.
  lemma {:induction false} TokenRow(table: Table<TokenId, NFTRow>, records: seq<NFTsData>, token: TokenId, ledger: nat)
    ensures var t, p := WithTokens(table, records), (token, ledger);
      && (SomeNames(records, token, ledger) ==> p in t && SomeNamesAs(records, token, ledger, t[p]))
      && (!SomeNames(records, token, ledger) ==> (p in t <==> p in table) && (p in t ==> t[p] == table[p]))
  {
    if records != [] {
      var rest, last := records[..|records| - 1], records[|records| - 1];
      TokenRow(table, rest, token, ledger);
      if Names(last, token, ledger) {
        assert last in records;
      } else {
        assert forall r :: r in records <==> r in rest || r == last;
        assert SomeNames(records, token, ledger) <==> SomeNames(rest, token, ledger);
      }
    }
  }

  // When several records are written for the same row, the last one stays.
  lemma {:induction false} LastRecordStays(tables: NFTTables, records: seq<NFTsData>, i: nat)
    requires i < |records|
    ensures var r, t := records[i], Written(tables, records);
      && ((forall j | i < j < |records| :: !Names(records[j], r.token, r.ledger)) ==>
            (r.token, r.ledger) in t.tokens && t.tokens[(r.token, r.ledger)] == NFTRow(r.ledger, r.owner, r.burned))
      && (r.uri.Some? && (forall j | i < j < |records| :: !Sets(records[j], r.token, r.ledger)) ==>
            (r.token, r.ledger) in t.uris && t.uris[(r.token, r.ledger)] == r.uri.value)
  {
    var last := |records| - 1;
    if i < last {
      LastRecordStays(tables, records[..last], i);
    }
  }

  ghost predicate Issues(records: seq<NFTsData>, token: TokenId) {
    exists r :: r in records && r.token == token && r.uri.Some?
  }

  // The tokens listed under their issuers are those listed before and those of records with a URI.
  lemma IssuedAre(tables: NFTTables, a: seq<NFTsData>, b: seq<NFTsData>, token: TokenId)
    ensures token in Written(Written(tables, a), b).issued <==> token in tables.issued || Issues(a, token) || Issues(b, token)
  {
  }

  // So a token read after its record was written has what that record says, as long as nothing
  // newer is there.
  lemma ReadAfterWriting(tables: NFTTables, records: seq<NFTsData>, i: nat, ledger: nat)
    requires i < |records| && records[i].ledger <= ledger
    requires forall j | i < j < |records| :: !Names(records[j], records[i].token, records[i].ledger)
    requires forall s: nat | records[i].ledger < s <= ledger ::
      (records[i].token, s) !in tables.tokens && !SomeNames(records, records[i].token, s)
    ensures var r, t := records[i], Written(tables, records);
      SelectLatest(t.tokens, r.token, ledger) == Some(NFTRow(r.ledger, r.owner, r.burned))
  {
    var r, t := records[i], Written(tables, records);
    LastRecordStays(tables, records, i);
    forall s: nat | r.ledger < s <= ledger ensures (r.token, s) !in t.tokens {
      TokenRow(tables.tokens, records, r.token, s);
    }
    SelectLatestIs(t.tokens, r.token, r.ledger, ledger);
  }

  // Records that agree may be written in any order, and more than once.
  lemma UrisInAnyOrder(table: Table<TokenId, Uri>, a: seq<NFTsData>, b: seq<NFTsData>)
    requires forall r :: r in a <==> r in b
    requires forall r, q | r in a && q in a && Sets(r, q.token, q.ledger) && Sets(q, q.token, q.ledger) :: r.uri == q.uri
    ensures WithUris(table, a) == WithUris(table, b)
  {
    var ta, tb := WithUris(table, a), WithUris(table, b);
    forall token: TokenId, ledger: nat
      ensures (token, ledger) in ta <==> (token, ledger) in tb
      ensures (token, ledger) in ta ==> ta[(token, ledger)] == tb[(token, ledger)]
    {
      UriRow(table, a, token, ledger);
      UriRow(table, b, token, ledger);
    }
    forall p: (TokenId, nat)
      ensures p in ta <==> p in tb
      ensures p in ta ==> ta[p] == tb[p]
    {
      assert p == (p.0, p.1);
    }
  }

  function Flatten(batches: seq<seq<NFTsData>>): seq<NFTsData> {
    if batches == [] then [] else Flatten(batches[..|batches| - 1]) + batches[|batches| - 1]
  }

  function UriOr(uri: Option<Uri>): Uri {
    if uri.Some? then uri.value else []
  }

  class NFTStore {
    var tokens: Table<TokenId, NFTRow>
    var uris: Table<TokenId, Uri>
    var issued: set<TokenId>
    // Every batch of records ever handed over.
    ghost var batches: seq<seq<NFTsData>>

    function Tables(): NFTTables
      reads this
    {
      NFTTables(tokens, uris, issued)
    }

    constructor (tables: NFTTables)
      ensures Tables() == tables && batches == []
    {
      tokens, uris, issued, batches := tables.tokens, tables.uris, tables.issued, [];
    }

    method WriteNFTs(data: seq<NFTsData>)
      modifies this
      ensures Tables() == Written(old(Tables()), data)
      ensures forall t :: t in issued <==> t in old(issued) || exists r :: r in data && r.token == t && r.uri.Some?
      ensures batches == old(batches) + [data]
    {
      batches := batches + [data];
      for i := 0 to |data|
        invariant Tables() == Written(old(Tables()), data[..i])
        invariant batches == old(batches) + [data]
      {
        var record := data[i];
        assert data[..i + 1][..i] == data[..i];
        assert data[..i + 1] == data[..i] + [record];
        tokens := tokens[(record.token, record.ledger) := NFTRow(record.ledger, record.owner, record.burned)];
        if record.uri.Some? {
          issued := issued + {record.token};
          uris := uris[(record.token, record.ledger) := record.uri.value];
        }
      }
      assert data[..|data|] == data;
    }

    // A token without a URI row has an empty URI.
    method FetchNFT(token: TokenId, ledger: nat) returns (nft: Option<NFT>)
      ensures nft.None? <==> forall s: nat | s <= ledger :: (token, s) !in tokens
      ensures nft.Some? ==> nft.value.token == token
      ensures nft.Some? && SelectLatest(uris, token, ledger).None? ==> nft.value.uri == []
      ensures nft.Some? && SelectLatest(uris, token, ledger).Some? ==>
        nft.value.uri == SelectLatest(uris, token, ledger).value
      ensures nft.Some? ==>
        SelectLatest(tokens, token, ledger) == Some(NFTRow(nft.value.ledger, nft.value.owner, nft.value.burned))
    {
      SelectLatestRow(tokens, token, ledger);
      var row := SelectLatest(tokens, token, ledger);
      if row.None? {
        return None;
      }
      var uri := SelectLatest(uris, token, ledger);
      nft := Some(NFT(token, row.value.ledger, UriOr(uri), row.value.owner, row.value.burned));
    }
  }
}
