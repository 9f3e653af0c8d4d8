// Paging through the transactions of an account or a token (src/rpc/RPCHelpers.cpp,
// traverseTransactions; src/backend/CassandraBackend.cpp, fetchAccountTransactions and
// fetchNFTTransactions).
module TxPaging {
  import opened Wrappers
  import opened Sequences
  import opened Ledger

  const INT32_MAX: nat := 0x7FFF_FFFF
  const UINT32_SPAN: nat := 0x1_0000_0000

  // A row's place: its ledger and its index there.
  datatype Cursor = Cursor(ledger: nat, index: nat)

  datatype TxRow = TxRow(at: Cursor, hash: nat)

  datatype Error = MinOutOfRange | InvalidIndexes | LedgerAndRange

  // `ledger` is the one named by a ledger index or hash.
  datatype Request = Request(
    forward: bool, min: Option<int>, max: Option<int>, ledger: Option<nat>, marker: Option<Cursor>, limit: nat)

  // The ledgers asked for, and where to start.
  datatype Plan = Plan(min: nat, max: nat, cursor: Cursor)

  predicate Less(a: Cursor, b: Cursor) {
    a.ledger < b.ledger || (a.ledger == b.ledger && a.index < b.index)
  }

  /* The request */

  // An index of -1 stands for the end of the range that is available.
  predicate Outside(index: Option<int>, range: LedgerRange) {
    index.Some? && index.value != -1 && !(range.min <= index.value <= range.max)
  }

  function Bound(index: Option<int>, default: nat): int {
    if index.Some? && index.value != -1 then index.value else default
  }

  function StartOf(forward: bool, min: nat, max: nat): Cursor {
    if forward then Cursor(min, 0) else Cursor(max, INT32_MAX)
  }

  method PlanOf(request: Request, range: LedgerRange) returns (r: Result<Plan, Error>)
    requires range.min <= range.max
    ensures r.Ok? <==>
      && !Outside(request.min, range) && !Outside(request.max, range)
      && (request.max.Some? ==> Bound(request.min, range.min) <= Bound(request.max, range.max))
      && (request.min.Some? && request.max.Some? ==> request.min.value <= request.max.value)
      && (request.ledger.Some? ==> request.min.None? && request.max.None?)
    ensures r.Ok? && request.ledger.None? ==>
      r.value.min == Bound(request.min, range.min) <= r.value.max == Bound(request.max, range.max)
    // An end that is given, other than -1, is the one used; otherwise it is that of what is available.
    ensures r.Ok? && request.ledger.None? && request.min.Some? && request.min.value != -1 ==>
      r.value.min == request.min.value && range.min <= r.value.min <= range.max
    ensures r.Ok? && request.ledger.None? && (request.min.None? || request.min.value == -1) ==> r.value.min == range.min
    ensures r.Ok? && request.ledger.None? && request.max.Some? && request.max.value != -1 ==>
      r.value.max == request.max.value && range.min <= r.value.max <= range.max
    ensures r.Ok? && request.ledger.None? && (request.max.None? || request.max.value == -1) ==> r.value.max == range.max
    ensures r.Ok? && request.ledger.Some? ==> r.value.min == r.value.max == request.ledger.value
    ensures r.Ok? && request.marker.Some? ==> r.value.cursor == request.marker.value
    ensures r.Ok? && request.marker.None? ==>
      r.value.cursor == if request.forward then Cursor(r.value.min, 0) else Cursor(r.value.max, INT32_MAX)
    // The lower end is looked at first, then the upper one, then both together, then the ledger.
    ensures r.Err? ==> (r.error == MinOutOfRange <==>
      request.min.Some? && request.min.value != -1 && !(range.min <= request.min.value <= range.max))
    ensures r.Err? ==> (r.error == LedgerAndRange <==>
      && !Outside(request.min, range) && !Outside(request.max, range)
      && (request.max.Some? ==> Bound(request.min, range.min) <= Bound(request.max, range.max))
      && (request.min.Some? && request.max.Some? ==> request.min.value <= request.max.value))
  {
    var minIndex, maxIndex, cursor := range.min, range.max, request.marker;
    if request.min.Some? {
      var min := request.min.value;
      if min != -1 {
        if range.max < min || range.min > min {
          return Err(MinOutOfRange);
        }
        minIndex := min;
      }
      if request.forward && cursor.None? {
        cursor := Some(Cursor(minIndex, 0));
      }
    }
    if request.max.Some? {
      var max := request.max.value;
      if max != -1 {
        if range.max < max || range.min > max {
          return Err(InvalidIndexes);
        }
        maxIndex := max;
      }
      if minIndex > maxIndex {
        return Err(InvalidIndexes);
      }
      if !request.forward && cursor.None? {
        cursor := Some(Cursor(maxIndex, INT32_MAX));
      }
    }
    if request.max.Some? && request.min.Some? && request.max.value < request.min.value {
      return Err(InvalidIndexes);
    }
    if request.ledger.Some? {
      if request.max.Some? || request.min.Some? {
        return Err(LedgerAndRange);
      }
      minIndex, maxIndex := request.ledger.value, request.ledger.value;
    }
    if cursor.None? {
      cursor := Some(if request.forward then Cursor(minIndex, 0) else Cursor(maxIndex, INT32_MAX));
    }
    return Ok(Plan(minIndex, maxIndex, cursor.value));
  }

  /* The query */

  // The rows of one account or token, in the direction read.
  ghost predicate Ordered(list: seq<TxRow>, forward: bool) {
    forall i, j | 0 <= i < j < |list| :: if forward then Less(list[i].at, list[j].at) else Less(list[j].at, list[i].at)
  }

  // Forward the query selects from the cursor on, backward before it.
  predicate Selects(row: TxRow, forward: bool, cursor: Cursor) {
    if forward then !Less(row.at, cursor) else Less(row.at, cursor)
  }

  function Where(list: seq<TxRow>, forward: bool, cursor: Cursor): seq<TxRow> {
    if list == [] then []
    else (if Selects(list[0], forward, cursor) then [list[0]] else []) + Where(list[1..], forward, cursor)
  }

  // In an ordered list the rows selected are the last ones.
  lemma {:induction false} WhereIsSuffix(list: seq<TxRow>, forward: bool, cursor: Cursor, k: nat)
    requires k <= |list|
    requires forall i | 0 <= i < |list| :: Selects(list[i], forward, cursor) <==> i >= k
    ensures Where(list, forward, cursor) == list[k..]
  {
    if list != [] {
      WhereIsSuffix(list[1..], forward, cursor, if k > 0 then k - 1 else 0);
      if k == 0 {
        assert list == [list[0]] + list[1..];
      } else {
        assert list[1..][k - 1..] == list[k..];
      }
    }
  }

  // One page of rows, and where the next one starts if this one is full.
  method FetchTransactions(list: seq<TxRow>, limit: nat, forward: bool, cursor: Cursor)
    returns (txns: seq<TxRow>, next: Option<Cursor>)
    requires limit > 0
    ensures txns == Take(Where(list, forward, cursor), limit)
    ensures next == if |txns| == limit then Some(After(txns[|txns| - 1], forward)) else None
  {
    var result := Take(Where(list, forward, cursor), limit);
    if result == [] {
      return [], None;
    }
    txns := [];
    var numRows := |result|;
    var last := cursor;
    while numRows > 0
      invariant 0 <= numRows <= |result| && txns == result[..|result| - numRows]
      invariant numRows == 0 ==> last == After(result[|result| - 1], forward)
    {
      var row := result[|result| - numRows];
      txns := txns + [row];
      numRows := numRows - 1;
      if numRows == 0 {
        last := row.at;
        if forward {
          last := last.(index := (last.index + 1) % UINT32_SPAN);
        }
      }
    }
    next := if |txns| == limit then Some(last) else None;
  }

  function After(row: TxRow, forward: bool): Cursor {
    if forward then row.at.(index := (row.at.index + 1) % UINT32_SPAN) else row.at
  }

  /* The response */

  // A row beyond the far end of the ledgers asked for ends the response and its marker.
  predicate Beyond(row: TxRow, forward: bool, min: nat, max: nat) {
    if forward then row.at.ledger > max else row.at.ledger < min
  }

  // Backward, rows of ledgers after the ones asked for are passed over.
  predicate PassedOver(row: TxRow, forward: bool, max: nat) {
    !forward && row.at.ledger > max
  }

  function Shown(list: seq<TxRow>, forward: bool, min: nat, max: nat): seq<TxRow> {
    if list == [] || Beyond(list[0], forward, min, max) then []
    else (if PassedOver(list[0], forward, max) then [] else [list[0]]) + Shown(list[1..], forward, min, max)
  }

  predicate Stops(list: seq<TxRow>, forward: bool, min: nat, max: nat) {
    exists i :: 0 <= i < |list| && Beyond(list[i], forward, min, max)
  }

  method TraverseTransactions(list: seq<TxRow>, forward: bool, min: nat, max: nat, cursor: Cursor, limit: nat)
    returns (txns: seq<TxRow>, marker: Option<Cursor>)
    requires limit > 0
    ensures var page := Take(Where(list, forward, cursor), limit);
      && txns == Shown(page, forward, min, max)
      && marker == if |page| == limit && !Stops(page, forward, min, max) then Some(After(page[|page| - 1], forward)) else None
  {
    var blobs;
    blobs, marker := FetchTransactions(list, limit, forward, cursor);
    txns := [];
    ghost var rest := blobs;
    for i := 0 to |blobs|
      invariant rest == blobs[i..] && txns + Shown(rest, forward, min, max) == Shown(blobs, forward, min, max)
      invariant forall j | 0 <= j < i :: !Beyond(blobs[j], forward, min, max)
    {
      var row := blobs[i];
      assert rest[0] == row;
      if (row.at.ledger < min && !forward) || (row.at.ledger > max && forward) {
        assert Beyond(blobs[i], forward, min, max);
        marker := None;
        return;
      }
      ShownStep(txns, rest, forward, min, max);
      rest := rest[1..];
      if row.at.ledger > max && !forward {
        continue;
      }
      txns := txns + [row];
    }
  }

  lemma ShownStep(before: seq<TxRow>, list: seq<TxRow>, forward: bool, min: nat, max: nat)
    requires list != [] && !Beyond(list[0], forward, min, max)
    ensures before + Shown(list, forward, min, max) ==
      (if PassedOver(list[0], forward, max) then before else before + [list[0]]) + Shown(list[1..], forward, min, max)
  {
    Regroup(before, if PassedOver(list[0], forward, max) then [] else [list[0]], Shown(list[1..], forward, min, max));
    assert before + [] == before;
  }

  /* Repeated requests */

  // Cutting the list anywhere before a row beyond the end splits what is shown.
  lemma {:induction false} ShownConcat(a: seq<TxRow>, b: seq<TxRow>, forward: bool, min: nat, max: nat)
    ensures Shown(a + b, forward, min, max) ==
      Shown(a, forward, min, max) + if Stops(a, forward, min, max) then [] else Shown(b, forward, min, max)
  {
    if a == [] {
      assert a + b == b;
    } else {
      assert (a + b)[1..] == a[1..] + b;
      ShownConcat(a[1..], b, forward, min, max);
      if Beyond(a[0], forward, min, max) {
        assert Stops(a, forward, min, max);
      } else {
        StopsRest(a, forward, min, max);
        Regroup(if PassedOver(a[0], forward, max) then [] else [a[0]], Shown(a[1..], forward, min, max),
                if Stops(a, forward, min, max) then [] else Shown(b, forward, min, max));
      }
    }
  }

  lemma StopsRest(a: seq<TxRow>, forward: bool, min: nat, max: nat)
    requires a != [] && !Beyond(a[0], forward, min, max)
    ensures Stops(a, forward, min, max) <==> Stops(a[1..], forward, min, max)
  {
    if Stops(a, forward, min, max) {
      var i :| 0 <= i < |a| && Beyond(a[i], forward, min, max);
      assert a[1..][i - 1] == a[i];
    }
    if Stops(a[1..], forward, min, max) {
      var i :| 0 <= i < |a[1..]| && Beyond(a[1..][i], forward, min, max);
      assert a[i + 1] == a[1..][i];
    }
  }

  // Indexes leave room for the cursor of the row after.
  ghost predicate Fits(list: seq<TxRow>) {
    forall i | 0 <= i < |list| :: list[i].at.index < UINT32_SPAN - 1
  }

  // The cursor after a row selects exactly the rows that follow it.
  lemma WhereAfter(list: seq<TxRow>, forward: bool, k: nat)
    requires Ordered(list, forward) && Fits(list) && k < |list|
    ensures Where(list, forward, After(list[k], forward)) == list[k + 1..]
  {
    forall i | 0 <= i < |list| ensures Selects(list[i], forward, After(list[k], forward)) <==> i >= k + 1 {
      if i < k {
        assert if forward then Less(list[i].at, list[k].at) else Less(list[k].at, list[i].at);
      } else if k < i {
        assert if forward then Less(list[k].at, list[i].at) else Less(list[i].at, list[k].at);
      }
    }
    WhereIsSuffix(list, forward, After(list[k], forward), k + 1);
  }

  // The rows selected from a cursor are the last ones of the list.
  lemma {:induction false} WhereStarts(list: seq<TxRow>, forward: bool, cursor: Cursor) returns (k: nat)
    requires Ordered(list, forward)
    ensures k <= |list| && Where(list, forward, cursor) == list[k..]
  {
    k := 0;
    while k < |list| && !Selects(list[k], forward, cursor)
      invariant k <= |list| && forall i | 0 <= i < k :: !Selects(list[i], forward, cursor)
    {
      k := k + 1;
    }
    forall i | k <= i < |list| ensures Selects(list[i], forward, cursor) {
      assert i > k ==> if forward then Less(list[k].at, list[i].at) else Less(list[i].at, list[k].at);
    }
    WhereIsSuffix(list, forward, cursor, k);
  }

  // What is shown of a page and of the rows after it, if the exchange goes on.
  lemma ShownByPage(page: seq<TxRow>, rest: seq<TxRow>, forward: bool, min: nat, max: nat, full: bool)
    requires !full ==> rest == []
    ensures Shown(page + rest, forward, min, max)
      == Shown(page, forward, min, max)
       + Shown(if full && !Stops(page, forward, min, max) then rest else [], forward, min, max)
  {
    ShownConcat(page, rest, forward, min, max);
  }

  // One request of several, from the k-th row on.
  lemma NextPage(list: seq<TxRow>, forward: bool, min: nat, max: nat, limit: nat, k: nat)
    requires Ordered(list, forward) && Fits(list) && limit > 0 && k <= |list|
    ensures var page := Take(list[k..], limit);
      var goesOn := |page| == limit && !Stops(page, forward, min, max);
      && k + |page| <= |list|
      && Shown(list[k..], forward, min, max)
        == Shown(page, forward, min, max) + Shown(if goesOn then list[k + |page|..] else [], forward, min, max)
      && (goesOn ==> Where(list, forward, After(page[|page| - 1], forward)) == list[k + |page|..])
  {
    var page := Take(list[k..], limit);
    TakeIs(list[k..], limit);
    PageAndRest(list, limit, k);
    ShownByPage(page, list[k + |page|..], forward, min, max, |page| == limit);
    if |page| == limit {
      WhereAfter(list, forward, k + limit - 1);
    }
  }

  lemma PageAndRest(list: seq<TxRow>, limit: nat, k: nat)
    requires k <= |list| && limit > 0
    ensures var page := Take(list[k..], limit);
      && k + |page| <= |list| && list[k..] == page + list[k + |page|..]
      && (if |page| == limit then page[limit - 1] == list[k + limit - 1] else list[k + |page|..] == [])
  {
  }

  // `rest` is what is still to be looked at when the marker is sent back.
  ghost predicate GoesOn(list: seq<TxRow>, forward: bool, marker: Option<Cursor>, rest: seq<TxRow>, k: nat) {
    k <= |list| && if marker.Some? then rest == list[k..] == Where(list, forward, marker.value) else rest == []
  }

  method NextRequest(list: seq<TxRow>, forward: bool, min: nat, max: nat, cursor: Cursor, limit: nat, ghost k: nat)
    returns (txns: seq<TxRow>, marker: Option<Cursor>, ghost rest: seq<TxRow>, ghost k': nat)
    requires Ordered(list, forward) && Fits(list) && limit > 0
    requires k <= |list| && Where(list, forward, cursor) == list[k..]
    ensures GoesOn(list, forward, marker, rest, k') && (marker.Some? ==> k' > k)
    ensures Shown(list[k..], forward, min, max) == txns + Shown(rest, forward, min, max)
  {
    ghost var page := Take(list[k..], limit);
    NextPage(list, forward, min, max, limit, k);
    txns, marker := TraverseTransactions(list, forward, min, max, cursor, limit);
    k' := if marker.Some? then k + |page| else k;
    rest := if marker.Some? then list[k'..] else [];
  }

  // Repeating the request with each marker returned shows every row from the cursor on that
  // belongs to the ledgers asked for, once, in order; and it ends.
  method TraverseAll(
    list: seq<TxRow>, forward: bool, min: nat, max: nat, start: Cursor, limit: nat) returns (all: seq<TxRow>)
    requires Ordered(list, forward) && Fits(list) && limit > 0
    ensures all == Shown(Where(list, forward, start), forward, min, max)
  {
    all := [];
    var marker := Some(start);
    ghost var k := WhereStarts(list, forward, start);
    ghost var rest := list[k..];
    ghost var want := Shown(rest, forward, min, max);
    while marker.Some?
      invariant GoesOn(list, forward, marker, rest, k)
      invariant all + Shown(rest, forward, min, max) == want
      decreases marker.Some?, |list| - k
    {
      var txns, next, rest', k' := NextRequest(list, forward, min, max, marker.value, limit, k);
      Regroup(all, txns, Shown(rest', forward, min, max));
      all, marker, rest, k := all + txns, next, rest', k';
    }
  }

  /* What a request without a marker is for */

  function InRange(list: seq<TxRow>, min: nat, max: nat): seq<TxRow> {
    if list == [] then []
    else (if min <= list[0].at.ledger <= max then [list[0]] else []) + InRange(list[1..], min, max)
  }

  // They are in the order they had, each once.
  lemma {:induction false} InRangeOrdered(list: seq<TxRow>, forward: bool, min: nat, max: nat)
    requires Ordered(list, forward)
    ensures Ordered(InRange(list, min, max), forward)
    ensures forall row :: row in InRange(list, min, max) <==> row in list && min <= row.at.ledger <= max
  {
    if list != [] {
      var rest := InRange(list[1..], min, max);
      InRangeOrdered(list[1..], forward, min, max);
      assert list == [list[0]] + list[1..];
      forall j | 0 <= j < |rest|
        ensures if forward then Less(list[0].at, rest[j].at) else Less(rest[j].at, list[0].at)
      {
        assert rest[j] in rest;
        var i :| 0 < i < |list| && list[i] == rest[j];
      }
    }
  }

  // From its own starting point a request shows exactly the rows of the ledgers asked for.
  lemma {:induction false} StartShowsRange(list: seq<TxRow>, forward: bool, min: nat, max: nat)
    requires Ordered(list, forward) && min <= max
    requires forall i | 0 <= i < |list| :: list[i].at.index < INT32_MAX
    ensures Shown(Where(list, forward, StartOf(forward, min, max)), forward, min, max) == InRange(list, min, max)
  {
    var start := StartOf(forward, min, max);
    if list != [] {
      var rest := list[1..];
      StartShowsRange(rest, forward, min, max);
      if Selects(list[0], forward, start) {
        assert Where(list, forward, start)[1..] == Where(rest, forward, start);
        if Beyond(list[0], forward, min, max) {
          NoneInRange(list, forward, min, max);
        }
      } else {
        assert Where(list, forward, start) == Where(rest, forward, start);
      }
    }
  }

  lemma {:induction false} NoneInRange(list: seq<TxRow>, forward: bool, min: nat, max: nat)
    requires Ordered(list, forward) && list != [] && Beyond(list[0], forward, min, max)
    ensures InRange(list, min, max) == []
  {
    if |list| > 1 {
      assert if forward then Less(list[0].at, list[1].at) else Less(list[1].at, list[0].at);
      NoneInRange(list[1..], forward, min, max);
    }
  }

  /* What a request that carries a marker shows */

  // Of an ordered table everything at or after a ledger below the far end is shown, whatever the
  // near end: only a backward request is held to both.
  lemma {:induction false} ShownIs(list: seq<TxRow>, forward: bool, min: nat, max: nat)
    requires Ordered(list, forward) && min <= max
    ensures Shown(list, forward, min, max) == InRange(list, if forward then 0 else min, max)
  {
    if list != [] {
      if Beyond(list[0], forward, min, max) {
        NoneInRange(list, forward, if forward then 0 else min, max);
      } else {
        ShownIs(list[1..], forward, min, max);
      }
    }
  }

  // What a start point makes of the ledgers asked for.
  predicate StartsInRange(forward: bool, min: nat, start: Cursor) {
    forward ==> !Less(start, Cursor(min, 0))
  }

  lemma {:induction false} SelectedInRange(list: seq<TxRow>, min: nat, max: nat)
    requires forall i | 0 <= i < |list| :: list[i].at.ledger >= min
    ensures InRange(list, 0, max) == InRange(list, min, max)
  {
    if list != [] {
      SelectedInRange(list[1..], min, max);
    }
  }

  // From a start point in the range, the rows shown are those selected that lie in the range.
  lemma InRangeFromStart(list: seq<TxRow>, forward: bool, min: nat, max: nat, start: Cursor)
    requires Ordered(list, forward) && min <= max && StartsInRange(forward, min, start)
    ensures Shown(Where(list, forward, start), forward, min, max) == InRange(Where(list, forward, start), min, max)
  {
    var k := WhereStarts(list, forward, start);
    ShownIs(list[k..], forward, min, max);
    if forward {
      forall i | k <= i < |list| ensures list[i].at.ledger >= min {
        SelectedRow(list, forward, start, k, i);
      }
      SelectedInRange(list[k..], min, max);
    }
  }

  // A table with one row, at the marker itself, which the request shows though it is before the range.
  lemma MarkerBeforeRange(min: nat, max: nat, marker: Cursor)
    requires min <= max && !StartsInRange(true, min, marker)
    ensures var list := [TxRow(marker, 0)];
      && Ordered(list, true) && Where(list, true, marker) == list
      && Shown(list, true, min, max) == list && InRange(list, min, max) == []
  {
    var list := [TxRow(marker, 0)];
    assert list[1..] == [];
    assert Where(list, true, marker) == list;
  }

  // A request shows only rows of the ledgers asked for, whatever the table, if and only if it goes
  // backward or starts in the range.
  lemma OnlyRangeIffStartsThere(forward: bool, min: nat, max: nat, start: Cursor)
    requires min <= max
    ensures StartsInRange(forward, min, start) <==>
      forall list | Ordered(list, forward) ::
        Shown(Where(list, forward, start), forward, min, max) == InRange(Where(list, forward, start), min, max)
  {
    if StartsInRange(forward, min, start) {
      forall list | Ordered(list, forward)
        ensures Shown(Where(list, forward, start), forward, min, max) == InRange(Where(list, forward, start), min, max)
      {
        InRangeFromStart(list, forward, min, max, start);
      }
    } else {
      MarkerBeforeRange(min, max, start);
      assert Ordered([TxRow(start, 0)], forward);
    }
  }

  // For one table: exactly when no row from the start point on lies before the range.
  lemma OnlyRangeOfTable(list: seq<TxRow>, forward: bool, min: nat, max: nat, start: Cursor)
    requires Ordered(list, forward) && min <= max
    ensures var rows := Where(list, forward, start);
      Shown(rows, forward, min, max) == InRange(rows, min, max) <==>
        (forward ==> forall i | 0 <= i < |rows| :: rows[i].at.ledger >= min)
  {
    var k := WhereStarts(list, forward, start);
    var rows := list[k..];
    ShownIs(rows, forward, min, max);
    if forward {
      if forall i | 0 <= i < |rows| :: rows[i].at.ledger >= min {
        SelectedInRange(rows, min, max);
      } else {
        var i :| 0 <= i < |rows| && rows[i].at.ledger < min;
        InRangeHolds(rows, 0, max, rows[i]);
        InRangeHolds(rows, min, max, rows[i]);
      }
    }
  }

  lemma {:induction false} InRangeHolds(list: seq<TxRow>, min: nat, max: nat, row: TxRow)
    ensures row in InRange(list, min, max) <==> row in list && min <= row.at.ledger <= max
  {
    if list != [] {
      InRangeHolds(list[1..], min, max, row);
      assert list == [list[0]] + list[1..];
    }
  }

  lemma SelectedRow(list: seq<TxRow>, forward: bool, cursor: Cursor, k: nat, i: nat)
    requires Ordered(list, forward) && k <= i < |list| && Where(list, forward, cursor) == list[k..]
    ensures Selects(list[i], forward, cursor)
  {
    assert list[k..][i - k] == list[i];
    WhereSelects(list, forward, cursor, list[i]);
  }

  lemma {:induction false} WhereSelects(list: seq<TxRow>, forward: bool, cursor: Cursor, row: TxRow)
    requires row in Where(list, forward, cursor)
    ensures Selects(row, forward, cursor)
  {
    if !(Selects(list[0], forward, cursor) && row == list[0]) {
      WhereSelects(list[1..], forward, cursor, row);
    }
  }

  // The ledgers an accepted request asks for.
  function Asked(request: Request, range: LedgerRange): (int, int) {
    if request.ledger.Some? then (request.ledger.value, request.ledger.value)
    else (Bound(request.min, range.min), Bound(request.max, range.max))
  }

  // The whole exchange: an accepted request, repeated until no marker comes back. Without a marker
  // it returns the transactions of the ledgers asked for. With one it returns those of them from
  // the marker on, and, going forward from a marker before the range, the rows in between as well.
  method FetchAll(list: seq<TxRow>, request: Request, range: LedgerRange) returns (r: Result<seq<TxRow>, Error>)
    requires range.min <= range.max && Ordered(list, request.forward) && request.limit > 0
    requires forall i | 0 <= i < |list| :: list[i].at.index < INT32_MAX
    ensures r.Ok? ==> var (min, max) := Asked(request, range);
      0 <= min <= max
      && r.value ==
        match request.marker
        case None => InRange(list, min, max)
        case Some(marker) =>
          InRange(Where(list, request.forward, marker),
                  if StartsInRange(request.forward, min, marker) then min else 0, max)
  {
    var plan := PlanOf(request, range);
    match plan
    case Err(e) => return Err(e);
    case Ok(p) =>
      var all := TraverseAll(list, request.forward, p.min, p.max, p.cursor, request.limit);
      if request.marker.None? {
        StartShowsRange(list, request.forward, p.min, p.max);
      } else if StartsInRange(request.forward, p.min, p.cursor) {
        InRangeFromStart(list, request.forward, p.min, p.max, p.cursor);
      } else {
        var k := WhereStarts(list, request.forward, p.cursor);
        ShownIs(list[k..], request.forward, p.min, p.max);
      }
      return Ok(all);
  }
}
