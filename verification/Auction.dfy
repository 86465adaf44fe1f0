/** The auction period rollover, with the run-time checks the source makes after it. */
module Auction {
  import opened Bank
  import opened Options
  import opened Sorting
  import opened Sums

  datatype Bid = Bid(bidder: nat, amount: nat)

  datatype Lot = Lot(denom: Denom, amount: nat, bid: Option<Bid>)

  datatype Period = Period(start: nat, end: nat)

  datatype Params = Params(auctionLength: nat, nonAuctionable: set<Denom>, burnWinningBids: bool, enabled: bool)

  type Lots = map<nat, Lot>

  /** The staking token, in which bids are made. */
  const NATIVE: Denom := 0

  ghost predicate ValidParams(p: Params) {
    p.auctionLength > 0 && NATIVE in p.nonAuctionable
  }

  // ---------------------------------------------------------------------------------------------
  // Amounts over sets of lots

  function LotAmount(lots: Lots, d: Denom): nat -> nat {
    i => if i in lots && lots[i].denom == d then lots[i].amount else 0
  }

  function UnsoldAmount(lots: Lots, d: Denom): nat -> nat {
    i => if i in lots && lots[i].denom == d && lots[i].bid.None? then lots[i].amount else 0
  }

  function WonAmount(lots: Lots, user: nat, d: Denom): nat -> nat {
    i => if i in lots && lots[i].denom == d && lots[i].bid.Some? && lots[i].bid.value.bidder == user then lots[i].amount else 0
  }

  function BidAmount(lots: Lots): nat -> nat {
    i => if i in lots && lots[i].bid.Some? then lots[i].bid.value.amount else 0
  }

  ghost function Bids(lots: Lots, ids: set<nat>): nat {
    Sum(ids, BidAmount(lots))
  }

  /** One lot per denom, none of the native token, and nothing empty. */
  ghost predicate GoodLots(lots: Lots) {
    && (forall i :: i in lots ==> lots[i].denom != NATIVE && lots[i].amount > 0 && (lots[i].bid.Some? ==> lots[i].bid.value.amount > 0))
    && (forall i, j :: i in lots && j in lots && i != j ==> lots[i].denom != lots[j].denom)
  }

  /** What the module account holds: the lots and the highest bids, exactly. */
  ghost predicate ModuleBalanced(b: Balances, lots: Lots) {
    forall d :: Amount(b, AuctionModule, d) == Sum(lots.Keys, LotAmount(lots, d)) + if d == NATIVE then Bids(lots, lots.Keys) else 0
  }

  ghost predicate BooksBalance(b: Balances, supply: map<Denom, nat>) {
    forall d :: Total(b, d) == Supply(supply, d)
  }

  function Supply(supply: map<Denom, nat>, d: Denom): nat {
    if d in supply then supply[d] else 0
  }

  // ---------------------------------------------------------------------------------------------
  // Closing

  /** Balances and supply after closing the lots in `done`. */
  ghost predicate Closed(b0: Balances, s0: map<Denom, nat>, b: Balances, s: map<Denom, nat>, lots: Lots,
        done: set<nat>, burn: bool) {
    && (forall d :: ClosedIn(b0, s0, b, s, lots, done, burn, d))
    && (forall u, d :: Amount(b, User(u), d) == Amount(b0, User(u), d) + Sum(done, WonAmount(lots, u, d)))
  }

  ghost predicate ClosedIn(b0: Balances, s0: map<Denom, nat>, b: Balances, s: map<Denom, nat>, lots: Lots,
        done: set<nat>, burn: bool, d: Denom) {
    var bids := if d == NATIVE then Bids(lots, done) else 0;
    && Amount(b, AuctionModule, d) + Sum(done, LotAmount(lots, d)) + bids == Amount(b0, AuctionModule, d)
    && Amount(b, AuctionPool, d) == Amount(b0, AuctionPool, d) + Sum(done, UnsoldAmount(lots, d))
    && Amount(b, CommunityPool, d) == Amount(b0, CommunityPool, d) + (if burn then 0 else bids)
    && Supply(s, d) + (if burn then bids else 0) == Supply(s0, d)
  }

  /** What closing one lot does to the balances: the bid leaves first, then the lot. */
  function BidLeaves(b: Balances, n: nat, burn: bool): Balances
    requires n <= Amount(b, AuctionModule, NATIVE)
  {
    if burn then Put(b, AuctionModule, NATIVE, Amount(b, AuctionModule, NATIVE) - n)
    else Move(b, AuctionModule, CommunityPool, NATIVE, n)
  }

  predicate CanClose(b: Balances, lot: Lot) {
    && (lot.bid.Some? ==> lot.bid.value.amount <= Amount(b, AuctionModule, NATIVE))
    && lot.denom != NATIVE && lot.amount <= Amount(b, AuctionModule, lot.denom)
  }

  /** The module account covers the bid, and then the lot. */
  predicate CanPayOut(b: Balances, supply: map<Denom, nat>, lot: Lot, burn: bool)
    requires lot.bid.Some?
  {
    var bid := lot.bid.value.amount;
    && bid <= Amount(b, AuctionModule, NATIVE) && (burn ==> bid <= Supply(supply, NATIVE))
    && lot.amount <= Amount(BidLeaves(b, bid, burn), AuctionModule, lot.denom)
  }

  function CloseLot(b: Balances, lot: Lot, burn: bool): Balances
    requires CanClose(b, lot)
  {
    match lot.bid
    case Some(bid) => Move(BidLeaves(b, bid.amount, burn), AuctionModule, User(bid.bidder), lot.denom, lot.amount)
    case None => Move(b, AuctionModule, AuctionPool, lot.denom, lot.amount)
  }

  /** Only the native supply shrinks, by the burned bid. */
  ghost predicate Burned(s: map<Denom, nat>, s': map<Denom, nat>, lot: Lot, burn: bool) {
    forall d :: Supply(s', d) + (if d == NATIVE && burn && lot.bid.Some? then lot.bid.value.amount else 0) == Supply(s, d)
  }

  lemma CloseLotEffect(b: Balances, lot: Lot, burn: bool, d: Denom, u: nat)
    requires CanClose(b, lot)
    ensures var b' := CloseLot(b, lot, burn);
      var bid := if lot.bid.Some? && d == NATIVE then lot.bid.value.amount else 0;
      var amount := if d == lot.denom then lot.amount else 0;
      && Amount(b', AuctionModule, d) + amount + bid == Amount(b, AuctionModule, d)
      && Amount(b', AuctionPool, d) == Amount(b, AuctionPool, d) + (if lot.bid.None? then amount else 0)
      && Amount(b', CommunityPool, d) == Amount(b, CommunityPool, d) + (if burn then 0 else bid)
      && Amount(b', User(u), d) == Amount(b, User(u), d) + (if lot.bid.Some? && lot.bid.value.bidder == u then amount else 0)
  {
  }

  lemma CloseLotTotals(b: Balances, lot: Lot, burn: bool, d: Denom)
    requires CanClose(b, lot)
    ensures Total(CloseLot(b, lot, burn), d) + (if d == NATIVE && burn && lot.bid.Some? then lot.bid.value.amount else 0) == Total(b, d)
  {
    match lot.bid
    case Some(bid) =>
      var left := BidLeaves(b, bid.amount, burn);
      if burn {
        PutTotal(b, AuctionModule, NATIVE, Amount(b, AuctionModule, NATIVE) - bid.amount, d);
      } else {
        MoveConserves(b, AuctionModule, CommunityPool, NATIVE, bid.amount, d);
      }
      MoveConserves(left, AuctionModule, User(bid.bidder), lot.denom, lot.amount, d);
    case None => MoveConserves(b, AuctionModule, AuctionPool, lot.denom, lot.amount, d);
  }

  lemma FundsSuffice(b0: Balances, s0: map<Denom, nat>, b: Balances, s: map<Denom, nat>, lots: Lots, done: set<nat>,
        burn: bool, i: nat)
    requires GoodLots(lots) && ModuleBalanced(b0, lots) && Closed(b0, s0, b, s, lots, done, burn)
    requires i in lots && done <= lots.Keys && i !in done
    ensures CanClose(b, lots[i])
    ensures burn && lots[i].bid.Some? ==> lots[i].bid.value.amount + Bids(lots, done) <= Amount(b0, AuctionModule, NATIVE)
  {
    var lot := lots[i];
    Grow(lots, done, i, LotAmount(lots, lot.denom));
    Grow(lots, done, i, BidAmount(lots));
    NoNativeLots(lots, done);
    NoNativeLots(lots, lots.Keys);
    assert ClosedIn(b0, s0, b, s, lots, done, burn, lot.denom) && ClosedIn(b0, s0, b, s, lots, done, burn, NATIVE);
  }

  lemma Grow(lots: Lots, done: set<nat>, i: nat, f: nat -> nat)
    requires i in lots && done <= lots.Keys && i !in done
    ensures Sum(done + {i}, f) == Sum(done, f) + f(i) <= Sum(lots.Keys, f)
  {
    SumSplit(done + {i}, f, i);
    assert done + {i} - {i} == done;
    SumPart(done + {i}, lots.Keys, f);
  }

  lemma NoNativeLots(lots: Lots, ids: set<nat>)
    requires GoodLots(lots)
    ensures Sum(ids, LotAmount(lots, NATIVE)) == 0
  {
    SumSame(ids, LotAmount(lots, NATIVE), (i: nat) => 0);
    NoSum(ids);
  }

  lemma {:induction false} NoSum(ids: set<nat>)
    ensures Sum(ids, (i: nat) => 0) == 0
  {
    if ids != {} {
      var x :| x in ids;
      SumSplit(ids, (i: nat) => 0, x);
      NoSum(ids - {x});
    }
  }

  lemma ClosedInExtends(b0: Balances, s0: map<Denom, nat>, b: Balances, s: map<Denom, nat>, s': map<Denom, nat>,
        lots: Lots, done: set<nat>, burn: bool, i: nat, d: Denom)
    requires ClosedIn(b0, s0, b, s, lots, done, burn, d)
    requires i in lots && done <= lots.Keys && i !in done && CanClose(b, lots[i]) && Burned(s, s', lots[i], burn)
    ensures ClosedIn(b0, s0, CloseLot(b, lots[i], burn), s', lots, done + {i}, burn, d)
  {
    hide CloseLot, Sum, Amount, Supply;
    CloseLotEffect(b, lots[i], burn, d, 0);
    Grow(lots, done, i, BidAmount(lots));
    Grow(lots, done, i, LotAmount(lots, d));
    Grow(lots, done, i, UnsoldAmount(lots, d));
  }

  lemma ClosedExtends(b0: Balances, s0: map<Denom, nat>, b: Balances, s: map<Denom, nat>, s': map<Denom, nat>,
        lots: Lots, done: set<nat>, burn: bool, i: nat)
    requires Closed(b0, s0, b, s, lots, done, burn)
    requires i in lots && done <= lots.Keys && i !in done && CanClose(b, lots[i]) && Burned(s, s', lots[i], burn)
    ensures Closed(b0, s0, CloseLot(b, lots[i], burn), s', lots, done + {i}, burn)
  {
    hide ClosedIn, CloseLot, CanClose, Burned, Sum, Amount;
    var b' := CloseLot(b, lots[i], burn);
    forall d
      ensures ClosedIn(b0, s0, b', s', lots, done + {i}, burn, d)
    {
      ClosedInExtends(b0, s0, b, s, s', lots, done, burn, i, d);
    }
    forall u, d
      ensures Amount(b', User(u), d) == Amount(b0, User(u), d) + Sum(done + {i}, WonAmount(lots, u, d))
    {
      CloseLotEffect(b, lots[i], burn, d, u);
      Grow(lots, done, i, WonAmount(lots, u, d));
    }
  }

  // ---------------------------------------------------------------------------------------------
  // Opening

  /** Balances and lots once the pool's holdings in `done` are dealt with. */
  ghost predicate Opened(b0: Balances, b: Balances, lots: Lots, done: set<Denom>, nonAuctionable: set<Denom>) {
    && (forall d :: OpenedIn(b0, b, d, d in done, d in nonAuctionable))
    && (forall u, d :: Amount(b, User(u), d) == Amount(b0, User(u), d))
    && (forall i :: i in lots ==> lots[i].denom in done - nonAuctionable && lots[i] == Lot(lots[i].denom, Amount(b0, AuctionPool, lots[i].denom), None))
    && (forall d :: d in done - nonAuctionable ==> HasLot(lots, d))
    && (forall i, j :: i in lots && j in lots && i != j ==> lots[i].denom != lots[j].denom)
  }

  ghost predicate HasLot(lots: Lots, d: Denom) {
    exists i :: i in lots && lots[i].denom == d
  }

  ghost predicate OpenedIn(b0: Balances, b: Balances, d: Denom, done: bool, barred: bool) {
    var pooled := Amount(b0, AuctionPool, d);
    && Amount(b, AuctionPool, d) == (if done then 0 else pooled)
    && Amount(b, CommunityPool, d) == Amount(b0, CommunityPool, d) + (if done && barred then pooled else 0)
    && Amount(b, AuctionModule, d) == Amount(b0, AuctionModule, d) + (if done && !barred then pooled else 0)
  }

  function Pooled(b: Balances): set<Denom> {
    set k | k in b && k.0 == AuctionPool && b[k] > 0 :: k.1
  }

  function OpenOne(b: Balances, d: Denom, barred: bool): Balances {
    Move(b, AuctionPool, if barred then CommunityPool else AuctionModule, d, Amount(b, AuctionPool, d))
  }

  function OpenLot(b0: Balances, lots: Lots, d: Denom, barred: bool, id: nat): Lots {
    if barred then lots else lots[id := Lot(d, Amount(b0, AuctionPool, d), None)]
  }

  lemma OpenOneEffect(b: Balances, d: Denom, barred: bool, e: Denom, u: nat)
    ensures var b' := OpenOne(b, d, barred);
      && (d != e ==> forall a :: Amount(b', a, e) == Amount(b, a, e))
      && Amount(b', User(u), e) == Amount(b, User(u), e)
      && (d == e ==> OpenedIn(b, b', e, true, barred))
  {
  }

  lemma OpenedExtends(b0: Balances, b: Balances, lots: Lots, done: set<Denom>, barred: set<Denom>, d: Denom, id: nat)
    requires Opened(b0, b, lots, done, barred) && d !in done
    requires id !in lots
    ensures Opened(b0, OpenOne(b, d, d in barred), OpenLot(b0, lots, d, d in barred, id), done + {d}, barred)
  {
    hide OpenOne, Amount;
    var b' := OpenOne(b, d, d in barred);
    forall e
      ensures OpenedIn(b0, b', e, e in done + {d}, e in barred)
    {
      assert OpenedIn(b0, b, e, e in done, e in barred);
      OpenOneEffect(b, d, d in barred, e, 0);
    }
    forall u, e
      ensures Amount(b', User(u), e) == Amount(b0, User(u), e)
    {
      OpenOneEffect(b, d, d in barred, e, u);
    }
    OpenedLots(b0, lots, done, barred, d, id);
    hide OpenedIn;
  }

  lemma OpenedLots(b0: Balances, lots: Lots, done: set<Denom>, barred: set<Denom>, d: Denom, id: nat)
    requires forall i :: i in lots ==> lots[i].denom in done - barred && lots[i] == Lot(lots[i].denom, Amount(b0, AuctionPool, lots[i].denom), None)
    requires forall e :: e in done - barred ==> HasLot(lots, e)
    requires forall i, j :: i in lots && j in lots && i != j ==> lots[i].denom != lots[j].denom
    requires d !in done && id !in lots
    ensures var lots' := OpenLot(b0, lots, d, d in barred, id);
      && (forall i :: i in lots' ==> lots'[i].denom in done + {d} - barred && lots'[i] == Lot(lots'[i].denom, Amount(b0, AuctionPool, lots'[i].denom), None))
      && (forall e :: e in done + {d} - barred ==> HasLot(lots', e))
      && (forall i, j :: i in lots' && j in lots' && i != j ==> lots'[i].denom != lots'[j].denom)
  {
    var lots' := OpenLot(b0, lots, d, d in barred, id);
    forall e | e in done + {d} - barred
      ensures HasLot(lots', e)
    {
      if e == d {
        assert lots'[id].denom == d;
      } else {
        assert HasLot(lots, e);
        var i :| i in lots && lots[i].denom == e;
        assert lots'[i].denom == e;
      }
    }
  }

  // ---------------------------------------------------------------------------------------------
  // The run-time checks

  predicate SupplyChecked(start: map<Denom, nat>, end: map<Denom, nat>, ended: bool, burn: bool) {
    if !ended then start == end
    else
      && (forall d :: d in end ==> end[d] <= Supply(start, d))
      && (forall d :: d in start ==> Supply(end, d) < start[d] ==> d == NATIVE && burn)
  }

  /** What the source checks of one lot that closed. */
  predicate LotChecked(b0: Balances, b: Balances, lot: Lot) {
    && Amount(b0, AuctionModule, lot.denom) == lot.amount
    && match lot.bid
       case Some(bid) =>
         && Amount(b, User(bid.bidder), NATIVE) == Amount(b0, User(bid.bidder), NATIVE)
         && Amount(b, User(bid.bidder), lot.denom) == Amount(b0, User(bid.bidder), lot.denom) + lot.amount
         && Amount(b, AuctionModule, lot.denom) == Amount(b0, AuctionPool, lot.denom)
       case None =>
         Amount(b, AuctionModule, lot.denom) == Amount(b0, AuctionModule, lot.denom) + Amount(b0, AuctionPool, lot.denom)
  }

  /** What an account holds, denom by denom, without the zeros. */
  function Holdings(b: Balances, a: Account): map<Denom, nat> {
    map k | k in b && k.0 == a && b[k] > 0 :: k.1 := b[k]
  }

  /** Without a rollover the two module accounts may not change. */
  predicate Untouched(b0: Balances, b: Balances) {
    Holdings(b0, AuctionModule) == Holdings(b, AuctionModule) && Holdings(b0, AuctionPool) == Holdings(b, AuctionPool)
  }

  ghost predicate BalancesChecked(b0: Balances, b: Balances, closing: Lots, lots: Lots) {
    && (forall i :: i in closing ==> LotChecked(b0, b, closing[i]))
    && Pooled(b) == {}
    && Amount(b, AuctionModule, NATIVE) == 0
    && Amount(b0, AuctionModule, NATIVE) == Bids(closing, closing.Keys)
    && (forall i :: i in lots ==> Amount(b, AuctionModule, lots[i].denom) == lots[i].amount)
  }

  /** The denom was taken off auction while its lot was open, and the lot cannot simply be paid out. */
  predicate Stranded(b0: Balances, lot: Lot, nonAuctionable: set<Denom>) {
    lot.denom in nonAuctionable && (lot.bid.None? || Amount(b0, AuctionPool, lot.denom) > 0)
  }

  ghost predicate SomeStranded(b0: Balances, lots: Lots, nonAuctionable: set<Denom>) {
    exists i :: i in lots && Stranded(b0, lots[i], nonAuctionable)
  }

  /** With one lot per denom the sums have one term. */
  lemma SumsOfLot(lots: Lots, i: nat, u: nat)
    requires GoodLots(lots) && i in lots
    ensures var lot := lots[i];
      && Sum(lots.Keys, LotAmount(lots, lot.denom)) == lot.amount
      && Sum(lots.Keys, UnsoldAmount(lots, lot.denom)) == (if lot.bid.None? then lot.amount else 0)
      && Sum(lots.Keys, WonAmount(lots, u, lot.denom)) == (if lot.bid.Some? && lot.bid.value.bidder == u then lot.amount else 0)
      && Sum(lots.Keys, WonAmount(lots, u, NATIVE)) == 0
  {
    hide Sum;
    SumOne(lots.Keys, LotAmount(lots, lots[i].denom), i);
    SumOne(lots.Keys, UnsoldAmount(lots, lots[i].denom), i);
    SumOne(lots.Keys, WonAmount(lots, u, lots[i].denom), i);
    SumOne(lots.Keys, WonAmount(lots, u, NATIVE), i);
  }

  /** The rollover from `b0` and `lots` to `b2` and `lots2`, through `b1` where everything is closed. */
  ghost predicate RolledOver(b0: Balances, s0: map<Denom, nat>, lots: Lots, p: Params, b1: Balances, s1: map<Denom, nat>,
        b2: Balances, lots2: Lots) {
    && Closed(b0, s0, b1, s1, lots, lots.Keys, p.burnWinningBids)
    && Opened(b1, b2, lots2, Pooled(b1), p.nonAuctionable)
  }

  lemma EmptyAfterClosing(b0: Balances, s0: map<Denom, nat>, lots: Lots, p: Params, b1: Balances, s1: map<Denom, nat>,
        b2: Balances, lots2: Lots, d: Denom)
    requires GoodLots(lots) && ModuleBalanced(b0, lots) && RolledOver(b0, s0, lots, p, b1, s1, b2, lots2)
    ensures Amount(b1, AuctionModule, d) == 0 && Amount(b2, AuctionPool, d) == 0
    ensures Amount(b2, AuctionModule, d) == if d in p.nonAuctionable then 0 else Amount(b1, AuctionPool, d)
    ensures Amount(b1, AuctionPool, d) > 0 <==> d in Pooled(b1)
  {
    hide Sum;
    assert ClosedIn(b0, s0, b1, s1, lots, lots.Keys, p.burnWinningBids, d);
    assert OpenedIn(b1, b2, d, d in Pooled(b1), d in p.nonAuctionable);
    if Amount(b1, AuctionPool, d) > 0 {
      assert (AuctionPool, d) in b1;
    }
  }

  lemma LotCheckedIff(b0: Balances, s0: map<Denom, nat>, lots: Lots, p: Params, b1: Balances, s1: map<Denom, nat>,
        b2: Balances, lots2: Lots, i: nat)
    requires GoodLots(lots) && ModuleBalanced(b0, lots) && RolledOver(b0, s0, lots, p, b1, s1, b2, lots2)
    requires i in lots
    ensures LotChecked(b0, b2, lots[i]) <==> !Stranded(b0, lots[i], p.nonAuctionable)
  {
    hide Sum, Opened, OpenedIn;
    var lot := lots[i];
    var u := if lot.bid.Some? then lot.bid.value.bidder else 0;
    SumsOfLot(lots, i, u);
    EmptyAfterClosing(b0, s0, lots, p, b1, s1, b2, lots2, lot.denom);
    UsersKeep(b1, b2, lots2, p, u);
    assert ClosedIn(b0, s0, b1, s1, lots, lots.Keys, p.burnWinningBids, lot.denom);
  }

  lemma UsersKeep(b1: Balances, b2: Balances, lots2: Lots, p: Params, u: nat)
    requires Opened(b1, b2, lots2, Pooled(b1), p.nonAuctionable)
    ensures forall d :: Amount(b2, User(u), d) == Amount(b1, User(u), d)
  {
  }

  /** The checks on balances pass exactly when no closing lot is stranded. */
  lemma BalancesCheckedIff(b0: Balances, s0: map<Denom, nat>, lots: Lots, p: Params, b1: Balances, s1: map<Denom, nat>,
        b2: Balances, lots2: Lots)
    requires ValidParams(p) && GoodLots(lots) && ModuleBalanced(b0, lots) && RolledOver(b0, s0, lots, p, b1, s1, b2, lots2)
    ensures BalancesChecked(b0, b2, lots, lots2) <==> !SomeStranded(b0, lots, p.nonAuctionable)
  {
    hide Sum, Closed, LotChecked, Stranded;
    forall i | i in lots
      ensures LotChecked(b0, b2, lots[i]) <==> !Stranded(b0, lots[i], p.nonAuctionable)
    {
      LotCheckedIff(b0, s0, lots, p, b1, s1, b2, lots2, i);
    }
    forall d
      ensures Amount(b1, AuctionModule, d) == 0 && Amount(b2, AuctionPool, d) == 0
      ensures Amount(b2, AuctionModule, d) == if d in p.nonAuctionable then 0 else Amount(b1, AuctionPool, d)
    {
      EmptyAfterClosing(b0, s0, lots, p, b1, s1, b2, lots2, d);
    }
    assert Pooled(b2) == {} by {
      forall k | k in b2 && k.0 == AuctionPool
        ensures b2[k] == 0
      {
        assert Amount(b2, AuctionPool, k.1) == 0;
      }
    }
    NoNativeLots(lots, lots.Keys);
    assert Amount(b0, AuctionModule, NATIVE) == Bids(lots, lots.Keys);
  }

  lemma SupplyCheckPasses(b0: Balances, s0: map<Denom, nat>, lots: Lots, p: Params, b1: Balances, s1: map<Denom, nat>)
    requires Closed(b0, s0, b1, s1, lots, lots.Keys, p.burnWinningBids)
    ensures SupplyChecked(s0, s1, true, p.burnWinningBids)
  {
    hide Sum;
    forall d
      ensures Supply(s1, d) <= Supply(s0, d) && (Supply(s1, d) < Supply(s0, d) ==> d == NATIVE && p.burnWinningBids)
    {
      assert ClosedIn(b0, s0, b1, s1, lots, lots.Keys, p.burnWinningBids, d);
    }
    assert forall d :: d in s1 ==> s1[d] == Supply(s1, d);
    assert forall d :: d in s0 ==> s0[d] == Supply(s0, d);
  }

  /** The new lots are good and the module account holds exactly them. */
  lemma NewLotsBalanced(b0: Balances, s0: map<Denom, nat>, lots: Lots, p: Params, b1: Balances, s1: map<Denom, nat>,
        b2: Balances, lots2: Lots)
    requires ValidParams(p) && GoodLots(lots) && ModuleBalanced(b0, lots) && RolledOver(b0, s0, lots, p, b1, s1, b2, lots2)
    ensures GoodLots(lots2) && ModuleBalanced(b2, lots2)
  {
    hide Sum, Closed;
    forall i | i in lots2
      ensures lots2[i].denom != NATIVE && lots2[i].amount > 0
    {
      EmptyAfterClosing(b0, s0, lots, p, b1, s1, b2, lots2, lots2[i].denom);
    }
    SumSame(lots2.Keys, BidAmount(lots2), (i: nat) => 0);
    NoSum(lots2.Keys);
    forall d
      ensures Amount(b2, AuctionModule, d) == Sum(lots2.Keys, LotAmount(lots2, d))
    {
      EmptyAfterClosing(b0, s0, lots, p, b1, s1, b2, lots2, d);
      if d in Pooled(b1) - p.nonAuctionable {
        assert HasLot(lots2, d);
        var i :| i in lots2 && lots2[i].denom == d;
        SumOne(lots2.Keys, LotAmount(lots2, d), i);
      } else {
        SumOne(lots2.Keys, LotAmount(lots2, d), 0);
      }
    }
  }

  // ---------------------------------------------------------------------------------------------
  // The keeper

  class AuctionKeeper {
    var bank: Balances
    var supply: map<Denom, nat>
    var lots: Lots
    var lastId: nat
    var period: Option<Period>
    var height: nat
    var params: Params
    var halted: bool

    ghost predicate Good()
      reads this
    {
      && ValidParams(params) && GoodLots(lots) && ModuleBalanced(bank, lots) && BooksBalance(bank, supply)
      && forall i :: i in lots ==> i <= lastId
    }

    method Send(from: Account, to: Account, d: Denom, n: nat) returns (ok: bool)
      modifies this`bank
      ensures ok <==> n <= Amount(old(bank), from, d)
      ensures bank == if ok then Move(old(bank), from, to, d, n) else old(bank)
    {
      ok := n <= Amount(bank, from, d);
      if ok {
        bank := Put(bank, from, d, Amount(bank, from, d) - n);
        bank := Put(bank, to, d, Amount(bank, to, d) + n);
      }
    }

    /** Burns from the module account. */
    method BurnBid(n: nat) returns (ok: bool)
      modifies this`bank, this`supply
      ensures ok <==> n <= Amount(old(bank), AuctionModule, NATIVE) && n <= Supply(old(supply), NATIVE)
      ensures ok ==> bank == BidLeaves(old(bank), n, true)
      ensures ok ==> forall d :: Supply(supply, d) + (if d == NATIVE then n else 0) == Supply(old(supply), d)
    {
      ok := n <= Amount(bank, AuctionModule, NATIVE) && n <= Supply(supply, NATIVE);
      if ok {
        bank := Put(bank, AuctionModule, NATIVE, Amount(bank, AuctionModule, NATIVE) - n);
        supply := supply[NATIVE := Supply(supply, NATIVE) - n];
      }
    }

    /** The lot exists and the module account covers it and its bid. */
    ghost predicate Closable(i: nat)
      reads this
    {
      && params.enabled && i in lots && CanClose(bank, lots[i])
      && (params.burnWinningBids && lots[i].bid.Some? ==> lots[i].bid.value.amount <= Supply(supply, NATIVE))
    }

    method CloseAuctionWithWinner(i: nat) returns (ok: bool)
      modifies this`bank, this`supply
      ensures ok <==> params.enabled && i in lots && lots[i].bid.Some? && CanPayOut(old(bank), old(supply), lots[i], params.burnWinningBids)
      ensures !params.enabled || i !in lots || lots[i].bid.None? ==> bank == old(bank) && supply == old(supply)
      ensures old(Closable(i)) && lots[i].bid.Some? ==>
        ok && bank == CloseLot(old(bank), lots[i], params.burnWinningBids) && Burned(old(supply), supply, lots[i], params.burnWinningBids)
    {
      if !params.enabled || i !in lots || lots[i].bid.None? {
        return false;
      }
      var bid := lots[i].bid.value;
      if params.burnWinningBids {
        ok := BurnBid(bid.amount);
      } else {
        ok := Send(AuctionModule, CommunityPool, NATIVE, bid.amount);
      }
      if ok {
        ok := Send(AuctionModule, User(bid.bidder), lots[i].denom, lots[i].amount);
      }
    }

    method CloseAuctionNoWinner(i: nat) returns (ok: bool)
      modifies this`bank
      ensures ok <==> params.enabled && i in lots && lots[i].bid.None? && lots[i].amount <= Amount(old(bank), AuctionModule, lots[i].denom)
      ensures !ok ==> bank == old(bank)
      ensures old(Closable(i)) && lots[i].bid.None? ==> ok && bank == CloseLot(old(bank), lots[i], params.burnWinningBids)
    {
      if !params.enabled || i !in lots || lots[i].bid.Some? {
        return false;
      }
      ok := Send(AuctionModule, AuctionPool, lots[i].denom, lots[i].amount);
    }

    method CloseAuction(i: nat) returns (ok: bool)
      requires i in lots
      modifies this`bank, this`supply
      ensures old(Closable(i)) ==>
        ok && bank == CloseLot(old(bank), lots[i], params.burnWinningBids) && Burned(old(supply), supply, lots[i], params.burnWinningBids)
    {
      if lots[i].bid.Some? {
        ok := CloseAuctionWithWinner(i);
      } else {
        ok := CloseAuctionNoWinner(i);
      }
    }

    /** Closes every lot, whatever the order; no transfer fails. */
    method EndAuctionPeriod()
      requires Good() && params.enabled && !halted
      modifies this`bank, this`supply, this`lots, this`halted
      ensures !halted && lots == map[]
      ensures Closed(old(bank), old(supply), bank, supply, old(lots), old(lots).Keys, params.burnWinningBids)
      ensures BooksBalance(bank, supply)
    {
      hide Sum, Total, CloseLot, Burned, Closed;
      ghost var b0, s0 := bank, supply;
      var todo := lots.Keys;
      NothingClosed(b0, s0, lots, params.burnWinningBids);
      while todo != {}
        invariant todo <= lots.Keys && lots == old(lots) && !halted
        invariant Closed(b0, s0, bank, supply, lots, lots.Keys - todo, params.burnWinningBids)
        invariant BooksBalance(bank, supply)
        decreases todo
      {
        var i :| i in todo;
        ghost var done, b1, s1 := lots.Keys - todo, bank, supply;
        FundsSuffice(b0, s0, bank, supply, lots, done, params.burnWinningBids, i);
        NativeInSupply(bank, supply, lots[i]);
        var ok := CloseAuction(i);
        halted := !ok;
        ClosedExtends(b0, s0, b1, s1, supply, lots, done, params.burnWinningBids, i);
        BooksStayBalanced(b1, s1, supply, lots[i], params.burnWinningBids);
        todo := todo - {i};
        assert lots.Keys - todo == done + {i};
      }
      assert lots.Keys - todo == lots.Keys;
      lots := map[];
    }

    method CreateNewAuctionPeriod() returns (ok: bool)
      requires period.Some?
      modifies this`period
      ensures ok <==> params.enabled && old(period).value.end <= height && (old(period).value.end < height + 1 + params.auctionLength)
      ensures period == if ok then Some(Period(height + 1, height + 1 + params.auctionLength)) else old(period)
    {
      var next := Period(height + 1, height + 1 + params.auctionLength);
      if !params.enabled || period.value.end > height || period.value.end > next.start || period.value.end >= next.end {
        return false;
      }
      period := Some(next);
      return true;
    }

    /** One lot for each auctionable holding of the pool; the rest goes to the community pool. */
    method CreateAuctionsForAuctionPeriod() returns (ok: bool)
      requires ValidParams(params) && BooksBalance(bank, supply) && period.Some?
      modifies this`bank, this`lots, this`lastId
      ensures ok <==> params.enabled && old(lots) == map[] && period.value.start == height + 1 && period.value.end > height + 1
      ensures ok ==> Opened(old(bank), bank, lots, Pooled(old(bank)), params.nonAuctionable)
      ensures ok ==> BooksBalance(bank, supply)
      ensures ok ==> forall i :: i in lots ==> old(lastId) < i <= lastId
    {
      hide Sum, Total, Opened, Move, OpenLot;
      if !params.enabled || lots != map[] || period.value.start != height + 1 || period.value.end <= height + 1 {
        return false;
      }
      ghost var b0 := bank;
      var coins := SortKeys(Pooled(bank));
      NothingOpened(b0, params.nonAuctionable);
      assert Elements(coins[..0]) == {};
      for k := 0 to |coins|
        invariant Opened(b0, bank, lots, Elements(coins[..k]), params.nonAuctionable)
        invariant BooksBalance(bank, supply)
        invariant lastId >= old(lastId) && forall i :: i in lots ==> old(lastId) < i <= lastId
      {
        var d := coins[k];
        assert Elements(coins[..k + 1]) == Elements(coins[..k]) + {d} && d !in Elements(coins[..k]);
        OpenedExtends(b0, bank, lots, Elements(coins[..k]), params.nonAuctionable, d, lastId + 1);
        StillPooled(b0, bank, lots, Elements(coins[..k]), params.nonAuctionable, d);
        MovesConserve(bank, supply, d, d in params.nonAuctionable);
        var n := Amount(bank, AuctionPool, d);
        NewLots(b0, lots, d, lastId + 1);
        if d in params.nonAuctionable {
          ok := Send(AuctionPool, CommunityPool, d, n);
        } else {
          ok := Send(AuctionPool, AuctionModule, d, n);
          lastId := lastId + 1;
          lots := lots[lastId := Lot(d, n, None)];
        }
      }
      assert coins[..|coins|] == coins;
      ok := true;
    }

    /** Without a rollover nothing may have changed. After one, the loop over the closed lots tallies the bids and the other checks follow. */
    method AssertBalanceChanges(start: Balances, closing: Lots, ended: bool) returns (ok: bool)
      ensures ok <==> if ended then BalancesChecked(start, bank, closing, lots) else Untouched(start, bank)
    {
      hide Sum, LotChecked;
      if !ended {
        return Untouched(start, bank);
      }
      var bids := 0;
      var todo := closing.Keys;
      NoBids(closing);
      while todo != {}
        invariant todo <= closing.Keys && bids == Bids(closing, closing.Keys - todo)
        invariant forall i :: i in closing.Keys - todo ==> LotChecked(start, bank, closing[i])
        decreases todo
      {
        var i :| i in todo;
        if !LotChecked(start, bank, closing[i]) {
          return false;
        }
        Grow(closing, closing.Keys - todo, i, BidAmount(closing));
        assert closing.Keys - todo + {i} == closing.Keys - (todo - {i});
        if closing[i].bid.Some? {
          bids := bids + closing[i].bid.value.amount;
        }
        todo := todo - {i};
      }
      assert closing.Keys - todo == closing.Keys;
      if Pooled(bank) != {} || Amount(bank, AuctionModule, NATIVE) != 0 || Amount(start, AuctionModule, NATIVE) != bids {
        return false;
      }
      ok := forall i :: i in lots ==> Amount(bank, AuctionModule, lots[i].denom) == lots[i].amount;
    }

    /** The whole rollover; no step of it fails, and the checks that follow pass exactly when no closing lot is stranded. */
    method RollOver() returns (ghost closed: Balances)
      requires Good() && !halted && params.enabled && period.Some? && period.value.end <= height
      modifies this
      ensures !halted && params == old(params) && height == old(height)
      ensures RolledOver(old(bank), old(supply), old(lots), params, closed, supply, bank, lots)
      ensures Good() && period == Some(Period(height + 1, height + 1 + params.auctionLength))
      ensures forall i :: i in lots ==> old(lastId) < i
      ensures BalancesChecked(old(bank), bank, old(lots), lots) <==> !SomeStranded(old(bank), old(lots), params.nonAuctionable)
      ensures SupplyChecked(old(supply), supply, true, params.burnWinningBids)
    {
      hide Sum, Total, Closed, Opened, BalancesChecked, SomeStranded, ModuleBalanced, GoodLots, BooksBalance, SupplyChecked;
      EndAuctionPeriod();
      closed := bank;
      var created := CreateNewAuctionPeriod();
      var started := CreateAuctionsForAuctionPeriod();
      NewLotsBalanced(old(bank), old(supply), old(lots), params, closed, supply, bank, lots);
      BalancesCheckedIff(old(bank), old(supply), old(lots), params, closed, supply, bank, lots);
      SupplyCheckPasses(old(bank), old(supply), old(lots), params, closed, supply);
      halted := !created || !started;
    }

    /**
    From a good state the rollover halts exactly when a closing lot is stranded. Otherwise the state is good
    again, every account changes by exactly what `RolledOver` says, and the books balance.
     */
    method EndBlocker() returns (ghost closed: Balances)
      requires Good() && !halted
      modifies this
      ensures !params.enabled || (old(period).Some? && old(period).value.end > height) ==>
        !halted && bank == old(bank) && supply == old(supply) && lots == old(lots) && period == old(period) && lastId == old(lastId)
      ensures params.enabled && old(period).None? ==> halted
      ensures params.enabled && old(period).Some? && old(period).value.end <= height ==>
        && (halted <==> SomeStranded(old(bank), old(lots), params.nonAuctionable))
        && RolledOver(old(bank), old(supply), old(lots), params, closed, supply, bank, lots)
        && Good() && period == Some(Period(height + 1, height + 1 + params.auctionLength))
        && forall i :: i in lots ==> old(lastId) < i
      ensures params == old(params) && height == old(height)
    {
      hide Sum, Total, Closed, Opened, RolledOver, BalancesChecked, SomeStranded, ModuleBalanced, GoodLots, BooksBalance, Holdings;
      closed := bank;
      var startSupply, startBank, closing, ended := supply, bank, lots, false;
      if params.enabled {
        if period.None? {
          halted := true;
          return;
        }
        if period.value.end <= height {
          ended := true;
          closed := RollOver();
        }
      }
      var checked := AssertBalanceChanges(startBank, closing, ended);
      halted := !checked || !SupplyChecked(startSupply, supply, ended, params.burnWinningBids);
    }
  }

  lemma NothingClosed(b: Balances, s: map<Denom, nat>, lots: Lots, burn: bool)
    ensures Closed(b, s, b, s, lots, lots.Keys - lots.Keys, burn)
  {
    assert lots.Keys - lots.Keys == {};
  }

  lemma NothingOpened(b: Balances, barred: set<Denom>)
    ensures Opened(b, b, map[], {}, barred)
  {
  }

  lemma NoBids(lots: Lots)
    ensures Bids(lots, lots.Keys - lots.Keys) == 0
  {
    assert lots.Keys - lots.Keys == {};
  }

  lemma NativeInSupply(b: Balances, s: map<Denom, nat>, lot: Lot)
    requires BooksBalance(b, s) && CanClose(b, lot)
    ensures lot.bid.Some? ==> lot.bid.value.amount <= Supply(s, NATIVE)
  {
    if (AuctionModule, NATIVE) in b {
      SumSplit(b.Keys, Entry(b, NATIVE), (AuctionModule, NATIVE));
    }
    assert Total(b, NATIVE) == Supply(s, NATIVE);
  }

  lemma BooksStayBalanced(b: Balances, s: map<Denom, nat>, s': map<Denom, nat>, lot: Lot, burn: bool)
    requires BooksBalance(b, s) && CanClose(b, lot) && Burned(s, s', lot, burn)
    ensures BooksBalance(CloseLot(b, lot, burn), s')
  {
    hide Total, CloseLot;
    forall d
      ensures Total(CloseLot(b, lot, burn), d) == Supply(s', d)
    {
      CloseLotTotals(b, lot, burn, d);
      assert Total(b, d) == Supply(s, d);
    }
  }

  lemma MovesConserve(b: Balances, s: map<Denom, nat>, d: Denom, barred: bool)
    requires BooksBalance(b, s)
    ensures BooksBalance(OpenOne(b, d, barred), s)
  {
    hide Total, Move;
    forall e
      ensures Total(OpenOne(b, d, barred), e) == Supply(s, e)
    {
      MoveConserves(b, AuctionPool, if barred then CommunityPool else AuctionModule, d, Amount(b, AuctionPool, d), e);
      assert Total(b, e) == Supply(s, e);
    }
  }

  lemma StillPooled(b0: Balances, b: Balances, lots: Lots, done: set<Denom>, barred: set<Denom>, d: Denom)
    requires Opened(b0, b, lots, done, barred) && d !in done
    ensures Amount(b, AuctionPool, d) == Amount(b0, AuctionPool, d)
  {
    assert OpenedIn(b0, b, d, d in done, d in barred);
  }

  lemma NewLots(b0: Balances, lots: Lots, d: Denom, id: nat)
    ensures OpenLot(b0, lots, d, true, id) == lots
    ensures OpenLot(b0, lots, d, false, id) == lots[id := Lot(d, Amount(b0, AuctionPool, d), None)]
  {
  }

  // ---------------------------------------------------------------------------------------------
  // Taking a denom off auction while its lot is open

  /** Such a state is good, yet its rollover cannot pass the checks. */
  lemma StrandedLotExample()
    ensures var lots: Lots := map[1 := Lot(7, 50, None)];
      var b: Balances := map[(AuctionModule, 7) := 50];
      var p := Params(100, {NATIVE, 7}, true, true);
      && ValidParams(p) && GoodLots(lots) && ModuleBalanced(b, lots) && BooksBalance(b, map[7 := 50])
      && SomeStranded(b, lots, p.nonAuctionable)
  {
    var lots: Lots := map[1 := Lot(7, 50, None)];
    var b: Balances := map[(AuctionModule, 7) := 50];
    assert lots.Keys == {1} && b.Keys == {(AuctionModule, 7)};
    SumOne(lots.Keys, BidAmount(lots), 1);
    forall d
      ensures Amount(b, AuctionModule, d) == Sum(lots.Keys, LotAmount(lots, d))
      ensures Total(b, d) == Supply(map[7 := 50], d)
    {
      SumOne(lots.Keys, LotAmount(lots, d), 1);
      SumOne(b.Keys, Entry(b, d), (AuctionModule, 7));
    }
    assert Stranded(b, lots[1], {NATIVE, 7});
  }
}
