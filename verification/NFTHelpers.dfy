// Recovering tokens and owners from transaction metadata (src/etl/NFTHelpers.cpp).
module NFTHelpers {
  import opened Wrappers
  import opened Ledger
  import opened SetDifferences

  type Account = nat

  // A page's key begins with its owner's 160-bit account.
  function Owner(page: Key): Account {
    page / 0x1_00000000_00000000_00000000
  }

  datatype NodeKind = CreatedNode | ModifiedNode | DeletedNode

  // PreviousFields holds the page's tokens only if they changed.
  datatype Fields = Fields(tokens: Option<seq<TokenId>>)

  // `current` are the tokens in a created page's NewFields, or in another's FinalFields.
  datatype Node =
    | PageNode(key: Key, kind: NodeKind, previous: Option<Fields>, current: seq<TokenId>)
    | OfferNode(key: Key, token: TokenId, owner: Account)
    | OtherNode(key: Key)

  datatype Error = UnexpectedMetadata

  /* What the metadata says of the pages of two ledger states */

  type Pages = map<Key, seq<TokenId>>

  function Tokens(pages: Pages, key: Key): seq<TokenId> {
    if key in pages then pages[key] else []
  }

  ghost predicate HonestNode(node: Node, before: Pages, after: Pages) {
    node.PageNode? ==>
      var key := node.key;
      match node.kind
      case CreatedNode => key !in before && key in after && node.current == after[key]
      case ModifiedNode =>
        && key in before && key in after && node.current == after[key] && node.previous.Some?
        && node.previous.value.tokens == if before[key] == after[key] then None else Some(before[key])
      case DeletedNode =>
        // The page may have been emptied of some tokens before it was deleted.
        && key in before && key !in after
        && (if node.previous.Some? && node.previous.value.tokens.Some?
            then node.previous.value.tokens.value == before[key]
            else node.current == before[key])
  }

  ghost predicate HasPage(nodes: seq<Node>, key: Key) {
    exists i :: 0 <= i < |nodes| && nodes[i].PageNode? && nodes[i].key == key
  }

  // One node for every page that changed, and every page node is true.
  ghost predicate HonestNodes(nodes: seq<Node>, before: Pages, after: Pages) {
    && (forall i | 0 <= i < |nodes| :: HonestNode(nodes[i], before, after))
    && (forall i, j | 0 <= i < j < |nodes| && nodes[i].PageNode? && nodes[j].PageNode? :: nodes[i].key != nodes[j].key)
    && (forall k | (k in before) != (k in after) || Tokens(before, k) != Tokens(after, k) :: HasPage(nodes, k))
  }

  // No token is on two pages.
  ghost predicate OnePageEach(pages: Pages) {
    forall k, l, id | k in pages && l in pages && id in pages[k] && id in pages[l] :: k == l
  }

  /* Minting */

  // Nodes whose tokens enter the comparison: a page whose links alone changed does not.
  predicate Counts(node: Node) {
    node.PageNode? && (node.kind.CreatedNode? || (node.previous.Some? && node.previous.value.tokens.Some?))
  }

  function FinalOf(node: Node): seq<TokenId> {
    if Counts(node) then node.current else []
  }

  function PreviousOf(node: Node): seq<TokenId> {
    if Counts(node) && !node.kind.CreatedNode? then node.previous.value.tokens.value else []
  }

  function FinalIds(nodes: seq<Node>): seq<TokenId> {
    if nodes == [] then [] else FinalIds(nodes[..|nodes| - 1]) + FinalOf(nodes[|nodes| - 1])
  }

  function PreviousIds(nodes: seq<Node>): seq<TokenId> {
    if nodes == [] then [] else PreviousIds(nodes[..|nodes| - 1]) + PreviousOf(nodes[|nodes| - 1])
  }

  // A page that was not created comes with its previous fields.
  predicate Readable(node: Node) {
    node.PageNode? && !node.kind.CreatedNode? ==> node.previous.Some?
  }

  function FirstPage(nodes: seq<Node>): Option<Key> {
    if nodes == [] then None
    else
      var last := nodes[|nodes| - 1];
      var first := FirstPage(nodes[..|nodes| - 1]);
      if first.None? && last.PageNode? then Some(last.key) else first
  }

  // Token IDs before and after, of the pages whose tokens changed, and the first page seen.
  method CollectIds(
    nodes: seq<Node>) returns (ok: bool, prevIDs: seq<TokenId>, finalIDs: seq<TokenId>, page: Option<Key>)
    ensures ok <==> forall i | 0 <= i < |nodes| :: Readable(nodes[i])
    ensures ok ==> prevIDs == PreviousIds(nodes) && finalIDs == FinalIds(nodes) && page == FirstPage(nodes)
  {
    ok, prevIDs, finalIDs, page := true, [], [], None;
    for i := 0 to |nodes|
      invariant ok && finalIDs == FinalIds(nodes[..i]) && prevIDs == PreviousIds(nodes[..i])
      invariant page == FirstPage(nodes[..i])
      invariant forall j | 0 <= j < i :: Readable(nodes[j])
    {
      var node := nodes[i];
      assert nodes[..i + 1][..i] == nodes[..i];
      if !node.PageNode? {
        continue;
      }
      if page.None? {
        page := Some(node.key);
      }
      if node.kind.CreatedNode? {
        finalIDs := finalIDs + node.current;
      } else {
        if node.previous.None? {
          ok := false;
          return;
        }
        if node.previous.value.tokens.None? {
          continue;
        }
        prevIDs := prevIDs + node.previous.value.tokens.value;
        finalIDs := finalIDs + node.current;
      }
    }
    assert nodes[..|nodes|] == nodes;
  }

  // The IDs the listed pages gained.
  function Gained(nodes: seq<Node>): multiset<TokenId> {
    multiset(FinalIds(nodes)) - multiset(PreviousIds(nodes))
  }

  // The one element, if there is just one.
  ghost function Single(g: multiset<TokenId>): Option<TokenId> {
    if exists id :: g == multiset{id} then
      var id :| g == multiset{id};
      Some(id)
    else
      None
  }

  lemma SingleIs(d: seq<TokenId>)
    ensures Single(multiset(d)) == if |d| == 1 then Some(d[0]) else None
  {
    if |d| == 1 {
      assert d == [d[0]];
      assert forall id | multiset(d) == multiset{id} :: id in multiset(d);
    } else {
      forall id: TokenId ensures multiset(d) != multiset{id} {
        assert |multiset(d)| != |multiset{id}|;
      }
    }
  }

  // The minted token is the one ID that the pages gained, and its owner owns the first page seen.
  ghost function MintData(nodes: seq<Node>): Result<(TokenId, Account), Error> {
    var id, page := Single(Gained(nodes)), FirstPage(nodes);
    if (forall i | 0 <= i < |nodes| :: Readable(nodes[i])) && page.Some? && id.Some? then
      Ok((id.value, Owner(page.value)))
    else
      Err(UnexpectedMetadata)
  }

  // A page that was created, or whose tokens changed, has this token now, or had it before.
  ghost predicate HasNow(node: Node, id: TokenId) {
    && node.PageNode? && id in node.current
    && (node.kind.CreatedNode? || (node.previous.Some? && node.previous.value.tokens.Some?))
  }

  ghost predicate HadBefore(node: Node, id: TokenId) {
    && node.PageNode? && !node.kind.CreatedNode? && node.previous.Some? && node.previous.value.tokens.Some?
    && id in node.previous.value.tokens.value
  }

  // Only such pages enter the comparison, and all of them do.
  lemma {:induction false} FinalIdsAre(nodes: seq<Node>, id: TokenId)
    ensures id in FinalIds(nodes) <==> exists i :: 0 <= i < |nodes| && HasNow(nodes[i], id)
  {
    if nodes != [] {
      var rest := nodes[..|nodes| - 1];
      FinalIdsAre(rest, id);
      assert forall i | 0 <= i < |rest| :: rest[i] == nodes[i];
      assert id in FinalOf(nodes[|nodes| - 1]) <==> HasNow(nodes[|nodes| - 1], id);
    }
  }

  lemma {:induction false} PreviousIdsAre(nodes: seq<Node>, id: TokenId)
    ensures id in PreviousIds(nodes) <==> exists i :: 0 <= i < |nodes| && HadBefore(nodes[i], id)
  {
    if nodes != [] {
      var rest := nodes[..|nodes| - 1];
      PreviousIdsAre(rest, id);
      assert forall i | 0 <= i < |rest| :: rest[i] == nodes[i];
      assert id in PreviousOf(nodes[|nodes| - 1]) <==> HadBefore(nodes[|nodes| - 1], id);
    }
  }

  // The first page among the nodes.
  ghost predicate IsFirstPage(nodes: seq<Node>, i: int) {
    0 <= i < |nodes| && nodes[i].PageNode? && forall j | 0 <= j < i :: !nodes[j].PageNode?
  }

  lemma {:induction false} FirstPageIs(nodes: seq<Node>)
    ensures FirstPage(nodes).None? ==> forall i | 0 <= i < |nodes| :: !nodes[i].PageNode?
    ensures FirstPage(nodes).Some? ==> exists i :: IsFirstPage(nodes, i) && nodes[i].key == FirstPage(nodes).value
  {
    if nodes != [] {
      var rest, last := nodes[..|nodes| - 1], |nodes| - 1;
      FirstPageIs(rest);
      if FirstPage(rest).Some? {
        var i :| IsFirstPage(rest, i) && rest[i].key == FirstPage(rest).value;
        assert IsFirstPage(nodes, i);
      } else if nodes[last].PageNode? {
        assert IsFirstPage(nodes, last);
      }
    }
  }

  lemma SingleIff(g: multiset<TokenId>)
    ensures Single(g).Some? <==> exists id :: g == multiset{id}
    ensures Single(g).Some? ==> g == multiset{Single(g).value}
  {
  }

  method GetNFTokenMintData(nodes: seq<Node>) returns (r: Result<(TokenId, Account), Error>)
    ensures r == MintData(nodes)
    ensures r.Ok? <==> (
      && (forall i | 0 <= i < |nodes| && nodes[i].PageNode? && !nodes[i].kind.CreatedNode? :: nodes[i].previous.Some?)
      && (exists i :: 0 <= i < |nodes| && nodes[i].PageNode?)
      && exists id :: multiset(FinalIds(nodes)) - multiset(PreviousIds(nodes)) == multiset{id})
    ensures r.Ok? ==>
      && multiset(FinalIds(nodes)) - multiset(PreviousIds(nodes)) == multiset{r.value.0}
      && exists i :: IsFirstPage(nodes, i) && r.value.1 == Owner(nodes[i].key)
  {
    FirstPageIs(nodes);
    SingleIff(Gained(nodes));
    var ok, prevIDs, finalIDs, page := CollectIds(nodes);
    if !ok {
      return Err(UnexpectedMetadata);
    }
    var difference := SetDifference(Sort(finalIDs), Sort(prevIDs));
    SingleIs(difference);
    assert multiset(difference) == Gained(nodes);
    if |difference| == 1 && page.Some? {
      return Ok((difference[0], Owner(page.value)));
    }
    return Err(UnexpectedMetadata);
  }

  // All tokens of all pages.
  ghost function AllTokens(pages: Pages): multiset<TokenId> {
    if pages == map[] then multiset{}
    else
      var k :| k in pages;
      multiset(pages[k]) + AllTokens(pages - {k})
  }

  // The sum is taken page by page, in some order.
  lemma FirstPicked(pages: Pages) returns (k: Key)
    requires pages != map[]
    ensures k in pages && AllTokens(pages) == multiset(pages[k]) + AllTokens(pages - {k})
  {
    k :| k in pages && AllTokens(pages) == multiset(pages[k]) + AllTokens(pages - {k});
  }

  lemma {:induction false} AllTokensSplit(pages: Pages, k: Key)
    requires k in pages
    ensures AllTokens(pages) == multiset(pages[k]) + AllTokens(pages - {k})
    decreases pages
  {
    var l := FirstPicked(pages);
    if l != k {
      AllTokensSplit(pages - {l}, k);
      AllTokensSplit(pages - {k}, l);
      EitherFirst(pages, k, l);
    }
  }

  lemma EitherFirst(pages: Pages, k: Key, l: Key)
    requires k in pages && l in pages && k != l
    requires AllTokens(pages) == multiset(pages[l]) + AllTokens(pages - {l})
    requires AllTokens(pages - {l}) == multiset(pages[k]) + AllTokens(pages - {l} - {k})
    requires AllTokens(pages - {k}) == multiset(pages[l]) + AllTokens(pages - {k} - {l})
    ensures AllTokens(pages) == multiset(pages[k]) + AllTokens(pages - {k})
  {
    assert pages - {l} - {k} == pages - {k} - {l};
  }

  // One page's worth of the change.
  lemma SwapPage(before: Pages, after: Pages, node: Node) returns (mid: Pages)
    requires node.PageNode? && !node.kind.DeletedNode? && HonestNode(node, before, after)
    ensures mid == if node.key in before then after[node.key := before[node.key]] else after - {node.key}
    ensures AllTokens(after) + multiset(PreviousOf(node)) == AllTokens(mid) + multiset(FinalOf(node))
  {
    var k := node.key;
    mid := if k in before then after[k := before[k]] else after - {k};
    AllTokensSplit(after, k);
    if k in before {
      AllTokensSplit(mid, k);
      assert mid - {k} == after - {k};
    }
  }

  // The tokens gained in the listed nodes are the tokens gained in all pages, whatever was split,
  // created or merely relinked.
  lemma {:induction false} NodesBalance(nodes: seq<Node>, before: Pages, after: Pages)
    requires HonestNodes(nodes, before, after)
    requires forall i | 0 <= i < |nodes| && nodes[i].PageNode? :: !nodes[i].kind.DeletedNode?
    ensures AllTokens(after) + multiset(PreviousIds(nodes)) == AllTokens(before) + multiset(FinalIds(nodes))
  {
    if nodes == [] {
      assert forall k :: !HasPage(nodes, k);
      assert before == after;
    } else {
      var last := |nodes| - 1;
      var node, rest := nodes[last], nodes[..last];
      if node.PageNode? {
        var mid := SwapPage(before, after, node);
        RestIsHonest(nodes, before, after, mid);
        NodesBalance(rest, before, mid);
        SumsAddUp(
          AllTokens(after), AllTokens(mid), AllTokens(before),
          FinalIds(rest), FinalOf(node), PreviousIds(rest), PreviousOf(node));
      } else {
        RestIsHonest(nodes, before, after, after);
        NodesBalance(rest, before, after);
        assert FinalIds(nodes) == FinalIds(rest) && PreviousIds(nodes) == PreviousIds(rest);
      }
    }
  }

  lemma SumsAddUp(after: multiset<TokenId>, mid: multiset<TokenId>, before: multiset<TokenId>,
                  final: seq<TokenId>, final1: seq<TokenId>, previous: seq<TokenId>, previous1: seq<TokenId>)
    requires after + multiset(previous1) == mid + multiset(final1)
    requires mid + multiset(previous) == before + multiset(final)
    ensures after + multiset(previous + previous1) == before + multiset(final + final1)
  {
    calc {
      after + multiset(previous + previous1);
      (after + multiset(previous1)) + multiset(previous);
      (mid + multiset(previous)) + multiset(final1);
      before + multiset(final + final1);
    }
  }

  lemma RestIsHonest(nodes: seq<Node>, before: Pages, after: Pages, mid: Pages)
    requires nodes != [] && HonestNodes(nodes, before, after)
    requires var node := nodes[|nodes| - 1];
      mid ==
        if !node.PageNode? then after
        else if node.key in before then after[node.key := before[node.key]]
        else after - {node.key}
    ensures HonestNodes(nodes[..|nodes| - 1], before, mid)
  {
    var node, rest := nodes[|nodes| - 1], nodes[..|nodes| - 1];
    forall i | 0 <= i < |rest| ensures HonestNode(rest[i], before, mid) {
      assert HonestNode(nodes[i], before, after);
    }
    forall k | (k in before) != (k in mid) || Tokens(before, k) != Tokens(mid, k) ensures HasPage(rest, k) {
      assert HasPage(nodes, k);
      var i :| 0 <= i < |nodes| && nodes[i].PageNode? && nodes[i].key == k;
      assert rest[i] == nodes[i];
    }
  }

  // A mint adds one token to the pages of one account: the code finds that token and that account.
  lemma MintIsRecovered(nodes: seq<Node>, before: Pages, after: Pages, minted: TokenId, owner: Account)
    requires HonestNodes(nodes, before, after) && AllTokens(after) == AllTokens(before) + multiset{minted}
    requires forall i | 0 <= i < |nodes| && nodes[i].PageNode? :: !nodes[i].kind.DeletedNode? && Owner(nodes[i].key) == owner
    ensures MintData(nodes) == Ok((minted, owner))
  {
    GainedIsMinted(nodes, before, after, minted);
    FirstPageIsPage(nodes);
    forall i | 0 <= i < |nodes| ensures Readable(nodes[i]) {
      assert HonestNode(nodes[i], before, after);
    }
    SingleIs([minted]);
    assert multiset([minted]) == multiset{minted};
  }

  lemma {:induction false} FirstPageIsPage(nodes: seq<Node>)
    ensures FirstPage(nodes).None? ==> Gained(nodes) == multiset{} && FinalIds(nodes) == [] && PreviousIds(nodes) == []
    ensures FirstPage(nodes).Some? ==> HasPage(nodes, FirstPage(nodes).value)
  {
    if nodes != [] {
      var rest := nodes[..|nodes| - 1];
      FirstPageIsPage(rest);
      if FirstPage(rest).Some? {
        var i :| 0 <= i < |rest| && rest[i].PageNode? && rest[i].key == FirstPage(rest).value;
        assert nodes[i] == rest[i];
      }
    }
  }

  lemma GainedIsMinted(nodes: seq<Node>, before: Pages, after: Pages, minted: TokenId)
    requires HonestNodes(nodes, before, after) && AllTokens(after) == AllTokens(before) + multiset{minted}
    requires forall i | 0 <= i < |nodes| && nodes[i].PageNode? :: !nodes[i].kind.DeletedNode?
    ensures Gained(nodes) == multiset{minted}
  {
    NodesBalance(nodes, before, after);
    Cancels(AllTokens(before), multiset{minted}, multiset(FinalIds(nodes)), multiset(PreviousIds(nodes)));
  }

  lemma Cancels(
    before: multiset<TokenId>, more: multiset<TokenId>, final: multiset<TokenId>, previous: multiset<TokenId>)
    requires before + more + previous == before + final
    ensures final - previous == more
  {
    forall x: TokenId ensures final[x] == previous[x] + more[x] {
      assert (before + more + previous)[x] == (before + final)[x];
    }
  }

  /* Burning */

  // The tokens a burn looks at in one node.
  function BurnTokens(node: Node): Option<seq<TokenId>> {
    if !node.PageNode? || node.kind.CreatedNode? then None
    else if node.previous.Some? then node.previous.value.tokens
    else if node.kind.DeletedNode? then Some(node.current)
    else None
  }

  predicate BurnMatches(node: Node, token: TokenId) {
    BurnTokens(node).Some? && token in BurnTokens(node).value
  }

  // The owner of the first page whose earlier tokens include the burnt one.
  ghost predicate FirstMatch(nodes: seq<Node>, matches: Node -> bool, r: Result<Account, Error>) {
    match r
    case Err(_) => forall i | 0 <= i < |nodes| :: !matches(nodes[i])
    case Ok(owner) =>
      exists i :: 0 <= i < |nodes| && matches(nodes[i]) && owner == Owner(nodes[i].key)
        && forall j | 0 <= j < i :: !matches(nodes[j])
  }

  method GetNFTokenBurnData(nodes: seq<Node>, token: TokenId) returns (r: Result<Account, Error>)
    ensures FirstMatch(nodes, node => BurnMatches(node, token), r)
    ensures r.Err? <==> forall i | 0 <= i < |nodes| :: !BurnMatches(nodes[i], token)
    ensures r.Ok? ==> exists i :: 0 <= i < |nodes| && BurnMatches(nodes[i], token) && r.value == Owner(nodes[i].key)
                        && forall j | 0 <= j < i :: !BurnMatches(nodes[j], token)
  {
    for i := 0 to |nodes|
      invariant forall j | 0 <= j < i :: !BurnMatches(nodes[j], token)
    {
      var node := nodes[i];
      if !node.PageNode? || node.kind.CreatedNode? {
        continue;
      }
      var prevNFTs: Option<seq<TokenId>> := None;
      if node.previous.Some? {
        if node.previous.value.tokens.Some? {
          prevNFTs := node.previous.value.tokens;
        }
      } else if node.kind.DeletedNode? {
        prevNFTs := Some(node.current);
      }
      if prevNFTs.None? {
        continue;
      }
      if token in prevNFTs.value {
        return Ok(Owner(node.key));
      }
    }
    return Err(UnexpectedMetadata);
  }

  // A page deleted after a change that left its tokens alone: the tokens are in its final
  // fields, but only its previous fields are looked at.
  predicate DeletedWithOtherChange(node: Node) {
    node.PageNode? && node.kind.DeletedNode? && node.previous.Some? && node.previous.value.tokens.None?
  }

  // The owner at the time of the burn is found, whatever the order of the nodes, exactly unless
  // the token's page was deleted after such a change.
  lemma BurnOwnerIsRecovered(
    nodes: seq<Node>, before: Pages, after: Pages, token: TokenId, page: Key, r: Result<Account, Error>)
    requires HonestNodes(nodes, before, after) && OnePageEach(before)
    requires page in before && token in before[page] && token !in Tokens(after, page)
    requires FirstMatch(nodes, node => BurnMatches(node, token), r)
    ensures r == Ok(Owner(page)) <==> forall i | 0 <= i < |nodes| && nodes[i].key == page :: !DeletedWithOtherChange(nodes[i])
    ensures r == Ok(Owner(page)) || r.Err?
  {
    forall i | 0 <= i < |nodes| && BurnMatches(nodes[i], token) ensures nodes[i].key == page {
      assert HonestNode(nodes[i], before, after);
    }
    assert HasPage(nodes, page);
    var i :| 0 <= i < |nodes| && nodes[i].PageNode? && nodes[i].key == page;
    assert HonestNode(nodes[i], before, after);
    assert BurnMatches(nodes[i], token) <==> !DeletedWithOtherChange(nodes[i]);
    assert forall j | 0 <= j < |nodes| && j != i && nodes[j].key == page :: !nodes[j].PageNode?;
    if r.Ok? {
      var m :| 0 <= m < |nodes| && BurnMatches(nodes[m], token) && r.value == Owner(nodes[m].key);
      assert nodes[m].key == page;
    }
  }

  // Such a deletion is honest metadata, and the owner is not found in it.
  lemma BurnOwnerCanBeMissed(page: Key, token: TokenId)
    ensures var before: Pages := map[page := [token]];
      var nodes := [PageNode(page, DeletedNode, Some(Fields(None)), [token])];
      && HonestNodes(nodes, before, map[]) && OnePageEach(before)
      && !BurnMatches(nodes[0], token)
      && FirstMatch(nodes, node => BurnMatches(node, token), Err(UnexpectedMetadata))
  {
    var nodes := [PageNode(page, DeletedNode, Some(Fields(None)), [token])];
    assert nodes[0].key == page;
  }

  /* Accepting an offer */

  predicate AcceptMatches(node: Node, token: TokenId, seller: Account) {
    node.PageNode? && !node.kind.DeletedNode? && Owner(node.key) != seller && token in node.current
  }

  // The first node with this key.
  function FirstWith(nodes: seq<Node>, key: Key): Option<Node> {
    if nodes == [] then None
    else if nodes[0].key == key then Some(nodes[0])
    else FirstWith(nodes[1..], key)
  }

  method FindNode(nodes: seq<Node>, key: Key) returns (node: Option<Node>)
    ensures node == FirstWith(nodes, key)
    ensures node.Some? ==> node.value in nodes && node.value.key == key
    ensures node.None? ==> forall i | 0 <= i < |nodes| :: nodes[i].key != key
  {
    assert nodes[0..] == nodes;
    for i := 0 to |nodes|
      invariant forall j | 0 <= j < i :: nodes[j].key != key
      invariant FirstWith(nodes, key) == FirstWith(nodes[i..], key)
    {
      if nodes[i].key == key {
        return Some(nodes[i]);
      }
      assert nodes[i..][1..] == nodes[i + 1..];
    }
    return None;
  }

  // The accepted offer, which must be among the nodes; a buy offer comes first.
  function AcceptedOffer(nodes: seq<Node>, buyOffer: Option<Key>, sellOffer: Option<Key>): Option<Node> {
    var key := if buyOffer.Some? then buyOffer else sellOffer;
    var node := if key.Some? then FirstWith(nodes, key.value) else None;
    if node.Some? && node.value.OfferNode? then node else None
  }

  // The first node with this key, if it is an offer.
  ghost predicate IsFirstOffer(nodes: seq<Node>, key: Key, i: int) {
    0 <= i < |nodes| && nodes[i].OfferNode? && nodes[i].key == key && forall j | 0 <= j < i :: nodes[j].key != key
  }

  lemma {:induction false} FirstOfferIs(nodes: seq<Node>, key: Key)
    ensures var node := FirstWith(nodes, key);
      if node.Some? && node.value.OfferNode? then exists i :: IsFirstOffer(nodes, key, i) && nodes[i] == node.value
      else forall i :: !IsFirstOffer(nodes, key, i)
  {
    if nodes != [] {
      if nodes[0].key == key {
        assert nodes[0].OfferNode? ==> IsFirstOffer(nodes, key, 0);
      } else {
        FirstOfferIs(nodes[1..], key);
        forall i ensures IsFirstOffer(nodes, key, i) <==> IsFirstOffer(nodes[1..], key, i - 1) {
          assert forall j | 0 < j < |nodes| :: nodes[j] == nodes[1..][j - 1];
          assert forall j | 0 <= j < |nodes| - 1 :: nodes[1..][j] == nodes[j + 1];
        }
        if i :| IsFirstOffer(nodes[1..], key, i) && FirstWith(nodes, key) == Some(nodes[1..][i]) {
          assert IsFirstOffer(nodes, key, i + 1);
        }
      }
    }
  }

  // The token and its new owner: the buy offer's owner if there is one, and otherwise the owner of
  // the first other page that now holds the token.
  method GetNFTokenAcceptOfferData(nodes: seq<Node>, buyOffer: Option<Key>, sellOffer: Option<Key>)
    returns (r: Result<(TokenId, Account), Error>)
    // A buy offer is looked for whether or not there is a sell offer too, and its owner gets the token.
    ensures buyOffer.Some? ==> (r.Ok? <==> exists i :: IsFirstOffer(nodes, buyOffer.value, i))
    ensures buyOffer.Some? && r.Ok? ==>
      exists i :: IsFirstOffer(nodes, buyOffer.value, i) && r.value == (nodes[i].token, nodes[i].owner)
    ensures buyOffer.None? && sellOffer.None? ==> r.Err?
    ensures buyOffer.None? && sellOffer.Some? && r.Ok? ==>
      exists i :: IsFirstOffer(nodes, sellOffer.value, i) && r.value.0 == nodes[i].token && r.value.1 != nodes[i].owner
    ensures AcceptedOffer(nodes, buyOffer, sellOffer).None? ==> r.Err?
    ensures AcceptedOffer(nodes, buyOffer, sellOffer).Some? ==>
      var offer := AcceptedOffer(nodes, buyOffer, sellOffer).value;
      var holder := if r.Ok? then Ok(r.value.1) else Err(UnexpectedMetadata);
      && (r.Ok? ==> r.value.0 == offer.token)
      && if buyOffer.Some? then holder == Ok(offer.owner)
         else FirstMatch(nodes, node => AcceptMatches(node, offer.token, offer.owner), holder)
  {
    if buyOffer.Some? {
      FirstOfferIs(nodes, buyOffer.value);
      var affected := FindNode(nodes, buyOffer.value);
      if affected.None? || !affected.value.OfferNode? {
        return Err(UnexpectedMetadata);
      }
      return Ok((affected.value.token, affected.value.owner));
    }
    if sellOffer.None? {
      return Err(UnexpectedMetadata);
    }
    FirstOfferIs(nodes, sellOffer.value);
    var affected := FindNode(nodes, sellOffer.value);
    if affected.None? || !affected.value.OfferNode? {
      return Err(UnexpectedMetadata);
    }
    var owner := NewHolder(nodes, affected.value.token, affected.value.owner);
    match owner
    case Err(e) => return Err(e);
    case Ok(account) => return Ok((affected.value.token, account));
  }

  method NewHolder(nodes: seq<Node>, token: TokenId, seller: Account) returns (r: Result<Account, Error>)
    ensures FirstMatch(nodes, node => AcceptMatches(node, token, seller), r)
    ensures r.Err? <==> forall i | 0 <= i < |nodes| :: !AcceptMatches(nodes[i], token, seller)
    ensures r.Ok? ==> exists i :: 0 <= i < |nodes| && AcceptMatches(nodes[i], token, seller) && r.value == Owner(nodes[i].key)
                        && forall j | 0 <= j < i :: !AcceptMatches(nodes[j], token, seller)
  {
    for i := 0 to |nodes|
      invariant forall j | 0 <= j < i :: !AcceptMatches(nodes[j], token, seller)
    {
      var node := nodes[i];
      if !node.PageNode? || node.kind.DeletedNode? {
        continue;
      }
      if Owner(node.key) == seller {
        continue;
      }
      if token in node.current {
        return Ok(Owner(node.key));
      }
    }
    return Err(UnexpectedMetadata);
  }

  // After a sale without a buy offer the holder reported owns the page that gained the token,
  // whatever the order of the nodes.
  lemma NewHolderIsRecovered(
    nodes: seq<Node>, before: Pages, after: Pages, token: TokenId, seller: Account, page: Key,
    r: Result<Account, Error>)
    requires HonestNodes(nodes, before, after) && OnePageEach(after)
    requires page in after && token in after[page] && token !in Tokens(before, page) && Owner(page) != seller
    requires FirstMatch(nodes, node => AcceptMatches(node, token, seller), r)
    ensures r == Ok(Owner(page))
  {
    forall i | 0 <= i < |nodes| && AcceptMatches(nodes[i], token, seller) ensures nodes[i].key == page {
      assert HonestNode(nodes[i], before, after);
    }
    assert HasPage(nodes, page);
    var i :| 0 <= i < |nodes| && nodes[i].PageNode? && nodes[i].key == page;
    assert HonestNode(nodes[i], before, after);
    assert AcceptMatches(nodes[i], token, seller);
  }
}
