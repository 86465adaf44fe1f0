/** What the run-time checks after a rollover are worth: an outcome that passes them is the right one. */
module AuctionChecks {
  import opened Auction
  import opened Bank
  import opened Options
  import opened Sums

  /** After a rollover the supply check passes exactly when no supply has grown and only a burned native supply has shrunk. */
  lemma SupplyCheckedIff(start: map<Denom, nat>, end: map<Denom, nat>, burn: bool)
    ensures SupplyChecked(start, end, true, burn) <==>
      forall d :: Supply(end, d) <= Supply(start, d) && (Supply(end, d) < Supply(start, d) ==> d == NATIVE && burn)
    ensures SupplyChecked(start, end, false, burn) <==> start == end
  {
    if SupplyChecked(start, end, true, burn) {
      forall d
        ensures Supply(end, d) <= Supply(start, d) && (Supply(end, d) < Supply(start, d) ==> d == NATIVE && burn)
      {
      }
    }
    if forall d :: Supply(end, d) <= Supply(start, d) && (Supply(end, d) < Supply(start, d) ==> d == NATIVE && burn) {
      forall d | d in end
        ensures end[d] <= Supply(start, d)
      {
        assert end[d] == Supply(end, d);
      }
      forall d | d in start && Supply(end, d) < start[d]
        ensures d == NATIVE && burn
      {
        assert start[d] == Supply(start, d);
      }
    }
  }

  /** Without a rollover the check passes exactly when neither module account has changed in any denom. */
  lemma UntouchedIff(b0: Balances, b: Balances)
    ensures Untouched(b0, b) <==>
      forall d :: Amount(b, AuctionModule, d) == Amount(b0, AuctionModule, d) && Amount(b, AuctionPool, d) == Amount(b0, AuctionPool, d)
  {
    SameHoldings(b0, b, AuctionModule);
    SameHoldings(b0, b, AuctionPool);
  }

  lemma HoldingsAre(b: Balances, a: Account, d: Denom)
    ensures d in Holdings(b, a) <==> Amount(b, a, d) > 0
    ensures d in Holdings(b, a) ==> Holdings(b, a)[d] == Amount(b, a, d)
  {
    if Amount(b, a, d) > 0 {
      assert (a, d) in b;
    }
  }

  lemma SameHoldings(b0: Balances, b: Balances, a: Account)
    ensures Holdings(b0, a) == Holdings(b, a) <==> forall d :: Amount(b, a, d) == Amount(b0, a, d)
  {
    hide Holdings, Amount;
    forall d
      ensures (d in Holdings(b, a) <==> Amount(b, a, d) > 0) && (d in Holdings(b, a) ==> Holdings(b, a)[d] == Amount(b, a, d))
      ensures (d in Holdings(b0, a) <==> Amount(b0, a, d) > 0) && (d in Holdings(b0, a) ==> Holdings(b0, a)[d] == Amount(b0, a, d))
    {
      HoldingsAre(b, a, d);
      HoldingsAre(b0, a, d);
    }
    if forall d :: Amount(b, a, d) == Amount(b0, a, d) {
      assert forall d :: d in Holdings(b0, a) <==> d in Holdings(b, a);
      assert Holdings(b0, a) == Holdings(b, a);
    }
    if Holdings(b0, a) == Holdings(b, a) {
      forall d
        ensures Amount(b, a, d) == Amount(b0, a, d)
      {
        assert d in Holdings(b, a) <==> d in Holdings(b0, a);
      }
    }
  }

  /** The accounts agree wherever the checks look. */
  ghost predicate AgreeWhereChecked(b: Balances, c: Balances, closing: Lots, lots: Lots) {
    && (forall d :: Amount(b, AuctionPool, d) == Amount(c, AuctionPool, d))
    && Amount(b, AuctionModule, NATIVE) == Amount(c, AuctionModule, NATIVE)
    && (forall i :: i in closing ==> Amount(b, AuctionModule, closing[i].denom) == Amount(c, AuctionModule, closing[i].denom))
    && (forall i :: i in lots ==> Amount(b, AuctionModule, lots[i].denom) == Amount(c, AuctionModule, lots[i].denom))
    && (forall i :: i in closing && closing[i].bid.Some? ==> SameWinner(b, c, closing[i]))
  }

  ghost predicate SameWinner(b: Balances, c: Balances, lot: Lot)
    requires lot.bid.Some?
  {
    var u := User(lot.bid.value.bidder);
    Amount(b, u, NATIVE) == Amount(c, u, NATIVE) && Amount(b, u, lot.denom) == Amount(c, u, lot.denom)
  }

  lemma PooledIff(b: Balances, d: Denom)
    ensures d in Pooled(b) <==> Amount(b, AuctionPool, d) > 0
  {
    if Amount(b, AuctionPool, d) > 0 {
      assert (AuctionPool, d) in b;
    }
  }

  /** Two outcomes that both pass the checks agree on every amount the checks look at. */
  lemma ChecksDetermine(b0: Balances, b: Balances, c: Balances, closing: Lots, lots: Lots)
    requires BalancesChecked(b0, b, closing, lots) && BalancesChecked(b0, c, closing, lots)
    ensures AgreeWhereChecked(b, c, closing, lots)
  {
    forall d
      ensures Amount(b, AuctionPool, d) == Amount(c, AuctionPool, d)
    {
      PooledIff(b, d);
      PooledIff(c, d);
    }
    forall i | i in closing
      ensures Amount(b, AuctionModule, closing[i].denom) == Amount(c, AuctionModule, closing[i].denom)
      ensures closing[i].bid.Some? ==> SameWinner(b, c, closing[i])
    {
      assert LotChecked(b0, b, closing[i]) && LotChecked(b0, c, closing[i]);
    }
  }

  /**
  From a good state in which no lot is stranded, whatever else a faulty rollover might have done to the balances, it
  passes the checks only with the right amounts in the pool, in the module account and with the winners.
   */
  lemma FaultsAreCaught(b0: Balances, s0: map<Denom, nat>, lots: Lots, p: Params, b1: Balances, s1: map<Denom, nat>,
        b2: Balances, lots2: Lots, b: Balances)
    requires ValidParams(p) && GoodLots(lots) && ModuleBalanced(b0, lots) && RolledOver(b0, s0, lots, p, b1, s1, b2, lots2)
    requires !SomeStranded(b0, lots, p.nonAuctionable)
    ensures BalancesChecked(b0, b, lots, lots2) ==> AgreeWhereChecked(b, b2, lots, lots2)
  {
    hide RolledOver, BalancesChecked, AgreeWhereChecked, SomeStranded, ModuleBalanced, GoodLots;
    BalancesCheckedIff(b0, s0, lots, p, b1, s1, b2, lots2);
    if BalancesChecked(b0, b, lots, lots2) {
      ChecksDetermine(b0, b, b2, lots, lots2);
    }
  }

  /** Nor do they pass when the module account did not hold exactly the closing lots and their bids before. */
  lemma UnbalancedIsCaught(b0: Balances, b: Balances, closing: Lots, lots: Lots)
    requires GoodLots(closing)
    requires Amount(b0, AuctionModule, NATIVE) != Bids(closing, closing.Keys)
      || exists i :: i in closing && Amount(b0, AuctionModule, closing[i].denom) != closing[i].amount
    ensures !BalancesChecked(b0, b, closing, lots)
  {
    if i :| i in closing && Amount(b0, AuctionModule, closing[i].denom) != closing[i].amount {
      assert !LotChecked(b0, b, closing[i]);
    }
  }
}
