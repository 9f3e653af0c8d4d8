// Working out how far the offers of a book are funded (src/rpc/RPCHelpers.cpp, postProcessOrderBook).
module OrderBook {
  import opened Wrappers

  type Account = nat

  const PARITY: real := 1.0

  // `quality` is the rate of the directory the offer is in.
  datatype Offer = Offer(owner: Account, takerGets: real, takerPays: real, quality: real)

  // The issuer of what the offers sell, whether it and the issuer of what they buy have frozen
  // everything, the first one's transfer rate, and what each account holds, which may be negative.
  datatype Book = Book(
    issuer: Account, outFrozen: bool, inFrozen: bool, rate: real, taker: Account, holds: Account -> real)

  // Products and quotients are rounded, one way or another.
  datatype Arithmetic = Arithmetic(divide: (real, real) -> real, multiply: (real, real) -> real)

  // What is added to an offer: the part of it that is funded, what that costs its owner,
  // and the owner's funds when it is the owner's first offer.
  datatype Line = Line(offer: Offer, getsFunded: real, paysFunded: real, ownerPays: real, ownerFunds: Option<real>)

  type Balances = map<Account, real>

  function Min(a: real, b: real): real {
    if b < a then b else a
  }

  /* One offer, on values */

  // Both queries are about the same side.
  predicate GlobalFreeze(book: Book) {
    book.outFrozen || book.outFrozen
  }

  function FundsOf(book: Book, balances: Balances, offer: Offer): real {
    if offer.owner == book.issuer then offer.takerGets
    else if GlobalFreeze(book) then 0.0
    else if offer.owner in balances then balances[offer.owner]
    else if book.holds(offer.owner) < 0.0 then 0.0
    else book.holds(offer.owner)
  }

  // The transfer rate is charged unless the issuer is on one side.
  predicate Charged(book: Book, owner: Account) {
    book.rate != PARITY && book.taker != book.issuer && book.issuer != owner
  }

  function RateOf(book: Book, owner: Account): real {
    if Charged(book, owner) then book.rate else PARITY
  }

  function LineOf(book: Book, math: Arithmetic, balances: Balances, offer: Offer): Line {
    var funds := FundsOf(book, balances, offer);
    var rate := RateOf(book, offer.owner);
    var fundsLimit := if Charged(book, offer.owner) then math.divide(funds, rate) else funds;
    var getsFunded := if fundsLimit >= offer.takerGets then offer.takerGets else fundsLimit;
    var paysFunded := if fundsLimit >= offer.takerGets then offer.takerPays
                      else Min(offer.takerPays, math.multiply(getsFunded, offer.quality));
    var ownerPays := if rate == PARITY then getsFunded else Min(funds, math.multiply(getsFunded, rate));
    var first := offer.owner == book.issuer || GlobalFreeze(book) || offer.owner !in balances;
    Line(offer, getsFunded, paysFunded, ownerPays, if first then Some(funds) else None)
  }

  function BalancesAfter(book: Book, math: Arithmetic, balances: Balances, offer: Offer): Balances {
    balances[offer.owner := FundsOf(book, balances, offer) - LineOf(book, math, balances, offer).ownerPays]
  }

  // The running balances after the listed offers.
  function Running(book: Book, math: Arithmetic, offers: seq<Offer>): Balances {
    if offers == [] then map[]
    else BalancesAfter(book, math, Running(book, math, offers[..|offers| - 1]), offers[|offers| - 1])
  }

  function Lines(book: Book, math: Arithmetic, offers: seq<Offer>): seq<Line> {
    if offers == [] then []
    else
      var before := offers[..|offers| - 1];
      Lines(book, math, before) + [LineOf(book, math, Running(book, math, before), offers[|offers| - 1])]
  }

  method PostProcessOrderBook(book: Book, math: Arithmetic, offers: seq<Offer>) returns (lines: seq<Line>)
    ensures lines == Lines(book, math, offers)
  {
    lines := [];
    var umBalance: Balances := map[];
    var globalFreeze := book.outFrozen || book.outFrozen;
    for i := 0 to |offers|
      invariant lines == Lines(book, math, offers[..i]) && umBalance == Running(book, math, offers[..i])
    {
      var offer := offers[i];
      assert offers[..i + 1][..i] == offers[..i];
      var ownerFunds: real;
      var firstOwnerOffer := true;
      if book.issuer == offer.owner {
        ownerFunds := offer.takerGets;
      } else if globalFreeze {
        ownerFunds := 0.0;
      } else if offer.owner in umBalance {
        ownerFunds := umBalance[offer.owner];
        firstOwnerOffer := false;
      } else {
        ownerFunds := book.holds(offer.owner);
        if ownerFunds < 0.0 {
          ownerFunds := 0.0;
        }
      }
      var fundsLimit, offerRate := ownerFunds, PARITY;
      if book.rate != PARITY && book.taker != book.issuer && book.issuer != offer.owner {
        offerRate := book.rate;
        fundsLimit := math.divide(ownerFunds, offerRate);
      }
      var getsFunded, paysFunded := offer.takerGets, offer.takerPays;
      if fundsLimit < offer.takerGets {
        getsFunded := fundsLimit;
        paysFunded := Min(offer.takerPays, math.multiply(getsFunded, offer.quality));
      }
      var ownerPays := if PARITY == offerRate then getsFunded else Min(ownerFunds, math.multiply(getsFunded, offerRate));
      umBalance := umBalance[offer.owner := ownerFunds - ownerPays];
      lines := lines + [Line(offer, getsFunded, paysFunded, ownerPays, if firstOwnerOffer then Some(ownerFunds) else None)];
    }
    assert offers[..|offers|] == offers;
  }

  /* Conservation, however amounts are rounded */

  // Charging a rate does not make an amount smaller, and taking it off does not make it larger.
  ghost predicate Rounds(math: Arithmetic) {
    forall a: real, r: real {:trigger math.divide(a, r)} {:trigger math.multiply(a, r)} | a >= 0.0 ::
      && (r >= PARITY ==> 0.0 <= math.divide(a, r) <= a <= math.multiply(a, r))
      && (r >= 0.0 ==> math.multiply(a, r) >= 0.0)
  }

  ghost predicate Sane(book: Book, offers: seq<Offer>) {
    && book.rate >= PARITY
    && forall i | 0 <= i < |offers| :: offers[i].takerGets >= 0.0 && offers[i].takerPays >= 0.0 && offers[i].quality >= 0.0
  }

  // What an account other than the issuer starts with.
  function InitialFunds(book: Book, owner: Account): real {
    if GlobalFreeze(book) || book.holds(owner) < 0.0 then 0.0 else book.holds(owner)
  }

  function Remaining(book: Book, balances: Balances, owner: Account): real {
    if owner in balances then balances[owner] else InitialFunds(book, owner)
  }

  function OwnerPaid(lines: seq<Line>, owner: Account): real {
    if lines == [] then 0.0
    else
      var last := lines[|lines| - 1];
      OwnerPaid(lines[..|lines| - 1], owner) + if last.offer.owner == owner then last.ownerPays else 0.0
  }

  function OwnerFunded(lines: seq<Line>, owner: Account): real {
    if lines == [] then 0.0
    else
      var last := lines[|lines| - 1];
      OwnerFunded(lines[..|lines| - 1], owner) + if last.offer.owner == owner then last.getsFunded else 0.0
  }

  function OwnerOffered(offers: seq<Offer>, owner: Account): real {
    if offers == [] then 0.0
    else
      var last := offers[|offers| - 1];
      OwnerOffered(offers[..|offers| - 1], owner) + if last.owner == owner then last.takerGets else 0.0
  }

  // No more of an offer is funded than is offered, nor more than its owner has left and pays for.
  lemma LineIsFunded(book: Book, math: Arithmetic, balances: Balances, offer: Offer)
    requires Rounds(math) && book.rate >= PARITY
    requires offer.takerGets >= 0.0 && offer.takerPays >= 0.0 && offer.quality >= 0.0
    requires offer.owner in balances ==> balances[offer.owner] >= 0.0
    ensures var line, funds := LineOf(book, math, balances, offer), FundsOf(book, balances, offer);
      && 0.0 <= line.getsFunded <= offer.takerGets && 0.0 <= line.paysFunded <= offer.takerPays
      && line.getsFunded <= line.ownerPays <= funds
  {
    var funds := FundsOf(book, balances, offer);
    assert funds >= 0.0;
    if Charged(book, offer.owner) {
      assert 0.0 <= math.divide(funds, book.rate) <= funds;
    }
    var line := LineOf(book, math, balances, offer);
    assert math.multiply(line.getsFunded, offer.quality) >= 0.0;
    assert math.multiply(line.getsFunded, book.rate) >= line.getsFunded;
  }

  // Over any list of offers an owner's balance never goes below zero, and what the owner pays is
  // what the balance has lost; so payments, and amounts funded, never exceed the initial funds.
  lemma {:induction false} OwnerPaysFromFunds(book: Book, math: Arithmetic, offers: seq<Offer>, owner: Account)
    requires Rounds(math) && Sane(book, offers) && owner != book.issuer
    ensures var lines, left := Lines(book, math, offers), Remaining(book, Running(book, math, offers), owner);
      && left >= 0.0
      && OwnerPaid(lines, owner) == InitialFunds(book, owner) - left
      && 0.0 <= OwnerFunded(lines, owner) <= OwnerPaid(lines, owner) <= InitialFunds(book, owner)
      && OwnerFunded(lines, owner) <= OwnerOffered(offers, owner)
    ensures GlobalFreeze(book) && owner in Running(book, math, offers) ==> Running(book, math, offers)[owner] == 0.0
  {
    if offers != [] {
      var before, offer := offers[..|offers| - 1], offers[|offers| - 1];
      OwnerPaysFromFunds(book, math, before, owner);
      var balances := Running(book, math, before);
      var lines := Lines(book, math, offers);
      assert lines[..|lines| - 1] == Lines(book, math, before);
      if offer.owner == owner {
        LineIsFunded(book, math, balances, offer);
      }
    }
  }

  /* What each line says */

  lemma {:induction false} LinesAre(book: Book, math: Arithmetic, offers: seq<Offer>, i: nat)
    requires i < |offers|
    ensures |Lines(book, math, offers)| == |offers|
    ensures Lines(book, math, offers)[i] == LineOf(book, math, Running(book, math, offers[..i]), offers[i])
  {
    var last := |offers| - 1;
    LinesSize(book, math, offers[..last]);
    if i < last {
      LinesAre(book, math, offers[..last], i);
      assert offers[..last][..i] == offers[..i];
    }
  }

  lemma {:induction false} LinesSize(book: Book, math: Arithmetic, offers: seq<Offer>)
    ensures |Lines(book, math, offers)| == |offers|
  {
    if offers != [] {
      LinesSize(book, math, offers[..|offers| - 1]);
    }
  }

  // An owner has a balance once an offer of the owner's has been listed.
  lemma {:induction false} HasBalance(book: Book, math: Arithmetic, offers: seq<Offer>, owner: Account)
    ensures owner in Running(book, math, offers) <==> exists j :: 0 <= j < |offers| && offers[j].owner == owner
  {
    if offers != [] {
      var before := offers[..|offers| - 1];
      HasBalance(book, math, before, owner);
      assert forall j | 0 <= j < |before| :: before[j] == offers[j];
    }
  }

  // What the owner of an offer has left for it: nothing under a freeze of what is sold, and
  // otherwise what the owner holds, if anything, less what the owner's earlier offers cost.
  function LeftFor(book: Book, earlier: seq<Line>, owner: Account): real {
    (if book.outFrozen || book.holds(owner) < 0.0 then 0.0 else book.holds(owner)) - OwnerPaid(earlier, owner)
  }

  lemma FundsAreWhatIsLeft(book: Book, math: Arithmetic, offers: seq<Offer>, owner: Account, offer: Offer)
    requires Rounds(math) && Sane(book, offers) && owner == offer.owner != book.issuer
    ensures FundsOf(book, Running(book, math, offers), offer) == LeftFor(book, Lines(book, math, offers), owner) >= 0.0
  {
    OwnerPaysFromFunds(book, math, offers, owner);
  }

  // Of every offer as much is funded as is offered or as its owner's remaining funds pay for, less
  // the transfer rate where it is charged, whichever is less. A taker of the whole pays the whole
  // price, and of a part what that part is worth at the offer's rate but never more than the price.
  // The issuer's own offers are funded in full.
  lemma EveryLine(book: Book, math: Arithmetic, offers: seq<Offer>, i: nat)
    requires Rounds(math) && Sane(book, offers) && i < |offers|
    ensures |Lines(book, math, offers)| == |offers|
    ensures var line, o := Lines(book, math, offers)[i], offers[i];
      && line.offer == o && line.getsFunded <= o.takerGets
      && (line.getsFunded == o.takerGets ==> line.paysFunded == o.takerPays)
      && (line.getsFunded < o.takerGets ==>
            var worth := math.multiply(line.getsFunded, o.quality);
            line.paysFunded == if worth < o.takerPays then worth else o.takerPays)
    ensures var line, o := Lines(book, math, offers)[i], offers[i];
      o.owner == book.issuer ==>
        line.getsFunded == line.ownerPays == o.takerGets && line.paysFunded == o.takerPays
    ensures var line, o := Lines(book, math, offers)[i], offers[i];
      o.owner != book.issuer ==>
        var left := LeftFor(book, Lines(book, math, offers[..i]), o.owner);
        if book.rate != 1.0 && book.taker != book.issuer then
          var limit := math.divide(left, book.rate);
          var cost := math.multiply(line.getsFunded, book.rate);
          && line.getsFunded == (if limit < o.takerGets then limit else o.takerGets)
          && line.ownerPays == if cost < left then cost else left
        else
          line.getsFunded == line.ownerPays == if left < o.takerGets then left else o.takerGets
  {
    LinesAre(book, math, offers, i);
    var o := offers[i];
    if o.owner != book.issuer {
      FundsAreWhatIsLeft(book, math, offers[..i], o.owner, o);
    }
  }

  // The owner's funds are shown on the first offer of each owner, on every offer under a freeze of
  // what is sold, and on every offer of the issuer, and nowhere else.
  lemma OwnerFundsAreShown(book: Book, math: Arithmetic, offers: seq<Offer>, i: nat)
    requires i < |offers|
    ensures |Lines(book, math, offers)| == |offers|
    ensures var shown, o := Lines(book, math, offers)[i].ownerFunds, offers[i];
      var first := forall j | 0 <= j < i :: offers[j].owner != o.owner;
      && (shown.Some? <==> o.owner == book.issuer || book.outFrozen || first)
      && (shown.Some? ==>
            shown.value == (
              if o.owner == book.issuer then o.takerGets
              else if book.outFrozen || book.holds(o.owner) < 0.0 then 0.0
              else book.holds(o.owner)))
  {
    LinesAre(book, math, offers, i);
    HasBalance(book, math, offers[..i], offers[i].owner);
    assert forall j | 0 <= j < i :: offers[..i][j] == offers[j];
  }

  // What a part of an offer costs at the offer's rate.
  function Worth(funded: real, offer: Offer): real {
    funded * offer.quality
  }

  lemma PartAtRate(offer: Offer, funded: real, paid: real)
    requires offer.takerPays == Worth(offer.takerGets, offer) && offer.quality >= 0.0 && funded <= offer.takerGets
    requires funded == offer.takerGets ==> paid == offer.takerPays
    requires funded < offer.takerGets ==>
      paid == if Worth(funded, offer) < offer.takerPays then Worth(funded, offer) else offer.takerPays
    ensures paid == Worth(funded, offer)
  {
    assert (offer.takerGets - funded) * offer.quality >= 0.0;
  }

  lemma ExactWorth(a: real, offer: Offer)
    ensures Exact().multiply(a, offer.quality) == Worth(a, offer)
  {
  }

  // Without rounding, an offer whose price is its size at its rate has its funded part priced so.
  lemma FundedPartAtItsRate(book: Book, offers: seq<Offer>, i: nat)
    requires Sane(book, offers) && i < |offers| && offers[i].takerPays == Worth(offers[i].takerGets, offers[i])
    ensures |Lines(book, Exact(), offers)| == |offers|
    ensures var line := Lines(book, Exact(), offers)[i]; line.paysFunded == Worth(line.getsFunded, offers[i])
  {
    ExactRounds();
    EveryLine(book, Exact(), offers, i);
    var line := Lines(book, Exact(), offers)[i];
    ExactWorth(line.getsFunded, offers[i]);
    PartAtRate(offers[i], line.getsFunded, line.paysFunded);
  }

  /* Without rounding the funds are used to the full */

  function Exact(): Arithmetic {
    Arithmetic((a, r) => if r == 0.0 then 0.0 else a / r, (a, r) => a * r)
  }

  // What is left when so much of a share has been funded.
  function Left(share: real, funded: real, rate: real): real {
    (share - funded) * rate
  }

  // How much of an offer exact funds pay for.
  function Affordable(funds: real, rate: real, gets: real): real
    requires rate > 0.0
  {
    if funds / rate >= gets then gets else funds / rate
  }

  lemma ExactStep(share: real, rate: real, funded: real, offered: real, gets: real)
    requires rate > 0.0 && gets >= 0.0 && funded == Min(share, offered)
    ensures var left := Left(share, funded, rate);
      var more := Affordable(left, rate, gets);
      && funded + more == Min(share, offered + gets)
      && left - more * rate == Left(share, funded + more, rate) && more * rate <= left
  {
    var left := Left(share, funded, rate);
    assert left / rate == share - funded;
    var more := Affordable(left, rate, gets);
    assert left - more * rate == (share - funded - more) * rate;
    assert (share - funded - more) * rate >= 0.0;
  }

  lemma ExactRounds()
    ensures Rounds(Exact())
  {
    forall a: real, r: real {:trigger Exact().divide(a, r)} | a >= 0.0 && r >= PARITY
      ensures 0.0 <= Exact().divide(a, r) <= a <= Exact().multiply(a, r)
    {
      assert a * (r - 1.0) >= 0.0;
      assert (a - a / r) * r == a * (r - 1.0);
    }
    forall a: real, r: real {:trigger Exact().multiply(a, r)} | a >= 0.0 && r >= 0.0
      ensures Exact().multiply(a, r) >= 0.0
    {
      assert a * r >= 0.0;
    }
  }

  /* What a freeze does */

  // What the owner would have if nothing were frozen.
  function Held(book: Book, balances: Balances, owner: Account): real {
    if owner in balances then balances[owner] else if book.holds(owner) < 0.0 then 0.0 else book.holds(owner)
  }

  // An offer of anyone but the issuer whose owner has something left goes unfunded exactly when
  // what it sells is frozen, whatever becomes of what it buys.
  lemma UnfundedIffOutIsFrozen(book: Book, math: Arithmetic, balances: Balances, offer: Offer)
    requires Rounds(math) && book.rate >= PARITY && offer.owner != book.issuer && offer.takerGets > 0.0
    requires Held(book, balances, offer.owner) > 0.0
    requires Charged(book, offer.owner) ==> math.divide(Held(book, balances, offer.owner), book.rate) > 0.0
    ensures LineOf(book, math, balances, offer).getsFunded == 0.0 <==> book.outFrozen
  {
    assert Charged(book, offer.owner) ==> 0.0 <= math.divide(0.0, book.rate) <= 0.0;
  }

  // Only what the offers buy is frozen, and still an offer is funded in full.
  const IN_FROZEN := Book(0, false, true, PARITY, 2, _ => 1.0)
  const STILL_FUNDED := Offer(1, 1.0, 1.0, 1.0)

  lemma FundedAlthoughInIsFrozen()
    ensures Sane(IN_FROZEN, [STILL_FUNDED]) && IN_FROZEN.inFrozen && STILL_FUNDED.owner != IN_FROZEN.issuer
    ensures LineOf(IN_FROZEN, Exact(), map[], STILL_FUNDED).getsFunded == STILL_FUNDED.takerGets
  {
  }

  // The freeze of either side leaves every offer but the issuer's unfunded, as intended.
  ghost predicate FreezeHolds(book: Book, math: Arithmetic, offer: Offer) {
    (book.outFrozen || book.inFrozen) && offer.owner != book.issuer ==>
      LineOf(book, math, map[], offer).getsFunded == 0.0
  }

  // It does so for all books whose sides are frozen so if and only if the side sold is frozen, or
  // neither is.
  lemma FreezeHoldsIffNotInAlone(outFrozen: bool, inFrozen: bool)
    ensures (outFrozen || !inFrozen) <==>
      forall book: Book, math: Arithmetic, offer: Offer |
        book.outFrozen == outFrozen && book.inFrozen == inFrozen && Rounds(math) && Sane(book, [offer]) ::
        FreezeHolds(book, math, offer)
  {
    if outFrozen || !inFrozen {
      forall book: Book, math: Arithmetic, offer: Offer |
        book.outFrozen == outFrozen && book.inFrozen == inFrozen && Rounds(math) && Sane(book, [offer])
        ensures FreezeHolds(book, math, offer)
      {
        assert [offer][0] == offer;
        assert Charged(book, offer.owner) ==> 0.0 <= math.divide(0.0, book.rate) <= 0.0;
      }
    } else {
      ExactRounds();
      FundedAlthoughInIsFrozen();
      assert !FreezeHolds(IN_FROZEN, Exact(), STILL_FUNDED);
    }
  }

  lemma NothingFunded(share: real, rate: real)
    ensures Left(share, 0.0, rate) == share * rate
  {
  }

  lemma ExactLine(book: Book, balances: Balances, offer: Offer)
    requires book.rate >= PARITY && offer.owner != book.issuer
    ensures var rate, funds := RateOf(book, offer.owner), FundsOf(book, balances, offer);
      var line := LineOf(book, Exact(), balances, offer);
      var more := Affordable(funds, rate, offer.takerGets);
      line.getsFunded == more && line.ownerPays == Min(funds, more * rate)
  {
    var rate, funds := RateOf(book, offer.owner), FundsOf(book, balances, offer);
    assert rate == PARITY ==> funds / rate == funds;
    assert Exact().divide(funds, rate) == funds / rate;
    var more := Affordable(funds, rate, offer.takerGets);
    assert Exact().multiply(more, rate) == more * rate;
    if rate == PARITY {
      assert more * rate == more;
    }
  }

  // One more offer of the owner, whose share of the funds is what is left after the transfer rate.
  lemma ExactOffer(book: Book, balances: Balances, offer: Offer, share: real, funded: real, offered: real)
    requires book.rate >= PARITY && offer.owner != book.issuer && offer.takerGets >= 0.0
    requires funded == Min(share, offered)
    requires FundsOf(book, balances, offer) == Left(share, funded, RateOf(book, offer.owner))
    ensures var line := LineOf(book, Exact(), balances, offer);
      && funded + line.getsFunded == Min(share, offered + offer.takerGets)
      && FundsOf(book, balances, offer) - line.ownerPays == Left(share, funded + line.getsFunded, RateOf(book, offer.owner))
  {
    ExactLine(book, balances, offer);
    ExactStep(share, RateOf(book, offer.owner), funded, offered, offer.takerGets);
  }

  // With exact arithmetic an owner's offers together are funded with all that the owner has, less
  // the transfer rate, or with all that is offered, whichever is less.
  lemma {:induction false} FundsAreUsedUp(book: Book, offers: seq<Offer>, owner: Account, share: real)
    requires Sane(book, offers) && owner != book.issuer
    requires share * RateOf(book, owner) == InitialFunds(book, owner)
    ensures var lines := Lines(book, Exact(), offers);
      && OwnerFunded(lines, owner) == Min(share, OwnerOffered(offers, owner))
      && Remaining(book, Running(book, Exact(), offers), owner) == Left(share, OwnerFunded(lines, owner), RateOf(book, owner))
  {
    if offers == [] {
      NothingFunded(share, RateOf(book, owner));
      assert share >= 0.0;
    } else {
      var before, offer := offers[..|offers| - 1], offers[|offers| - 1];
      FundsAreUsedUp(book, before, owner, share);
      var balances, lines := Running(book, Exact(), before), Lines(book, Exact(), offers);
      assert lines[..|lines| - 1] == Lines(book, Exact(), before);
      if offer.owner == owner {
        var funded, offered := OwnerFunded(Lines(book, Exact(), before), owner), OwnerOffered(before, owner);
        OwnFunds(book, before, offer);
        ExactOffer(book, balances, offer, share, funded, offered);
        assert OwnerFunded(lines, owner) == funded + LineOf(book, Exact(), balances, offer).getsFunded;
      }
    }
  }

  lemma OwnFunds(book: Book, before: seq<Offer>, offer: Offer)
    requires Sane(book, before) && offer.owner != book.issuer
    ensures var balances := Running(book, Exact(), before);
      FundsOf(book, balances, offer) == Remaining(book, balances, offer.owner)
  {
    ExactRounds();
    OwnerPaysFromFunds(book, Exact(), before, offer.owner);
  }
}
