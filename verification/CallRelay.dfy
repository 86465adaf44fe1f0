/** Whether a logic call pays for itself: a sum that stops early, over a map in no particular order. */
module CallRelay {
  import opened Options
  import opened Sums

  type Token = nat

  datatype Fee = Fee(token: Token, amount: nat)

  /** All fees of one token. */
  function TotalOf(fees: seq<Fee>, t: Token): nat {
    if fees == [] then 0
    else
      var f := fees[|fees| - 1];
      TotalOf(fees[..|fees| - 1], t) + if f.token == t then f.amount else 0
  }

  ghost function TokensOf(fees: seq<Fee>): set<Token> {
    set i | 0 <= i < |fees| :: fees[i].token
  }

  /** What an amount is worth in ETH; nothing when no price can be had. */
  function Worth(weth: Token, price: (Token, nat) -> Option<nat>, t: Token, amount: nat): nat {
    if t == weth then amount
    else match price(t, amount) { case Some(p) => p case None => 0 }
  }

  /** The worth of all fees, token by token. */
  ghost function FullReward(weth: Token, price: (Token, nat) -> Option<nat>, fees: seq<Fee>): nat {
    Sum(TokensOf(fees), (t: Token) => Worth(weth, price, t, TotalOf(fees, t)))
  }

  method RewardsByToken(fees: seq<Fee>) returns (rewards: map<Token, nat>)
    ensures rewards.Keys == TokensOf(fees)
    ensures forall t :: t in rewards ==> rewards[t] == TotalOf(fees, t)
  {
    rewards := map[];
    for i := 0 to |fees|
      invariant rewards.Keys == TokensOf(fees[..i])
      invariant forall t :: (if t in rewards then rewards[t] else 0) == TotalOf(fees[..i], t)
    {
      assert fees[..i + 1][..i] == fees[..i];
      var f := fees[i];
      ghost var before := rewards.Keys;
      rewards := rewards[f.token := (if f.token in rewards then rewards[f.token] else 0) + f.amount];
      assert TokensOf(fees[..i + 1]) == TokensOf(fees[..i]) + {f.token} by {
        assert fees[..i + 1][i].token == f.token;
        assert forall k :: 0 <= k < i ==> fees[..i + 1][k] == fees[..i][k];
      }
    }
    assert fees[..|fees|] == fees;
  }

  /** Stopping early and taking tokens in any order gives the answer of the full sum. */
  method ShouldRelayLogicCall(weth: Token, price: (Token, nat) -> Option<nat>, fees: seq<Fee>, cost: nat) returns (r: bool)
    ensures r <==> FullReward(weth, price, fees) > cost
  {
    var rewards := RewardsByToken(fees);
    var total := 0;
    var todo := rewards.Keys;
    ghost var f := (t: Token) => Worth(weth, price, t, TotalOf(fees, t));
    while todo != {}
      invariant todo <= rewards.Keys
      invariant total + Sum(todo, f) == Sum(TokensOf(fees), f)
      invariant total <= cost
      decreases todo
    {
      var t :| t in todo;
      SumSplit(todo, f, t);
      todo := todo - {t};
      if t == weth {
        total := total + rewards[t];
      } else {
        var equivalent := price(t, rewards[t]);
        if equivalent.None? {
          continue;
        }
        total := total + equivalent.value;
      }
      if total > cost {
        return true;
      }
    }
    return false;
  }

  // ---------------------------------------------------------------------------------------------
  // What a fee is worth

  lemma {:induction false} NotAmong(fees: seq<Fee>, t: Token)
    requires t !in TokensOf(fees)
    ensures TotalOf(fees, t) == 0
  {
    if fees != [] {
      var front := fees[..|fees| - 1];
      forall i | 0 <= i < |front|
        ensures front[i].token in TokensOf(fees)
      {
        assert fees[i].token == front[i].token;
      }
      assert fees[|fees| - 1].token in TokensOf(fees);
      NotAmong(front, t);
    }
  }

  lemma TokensOfMore(fees: seq<Fee>, fee: Fee)
    ensures TokensOf(fees + [fee]) == TokensOf(fees) + {fee.token}
  {
    var more := fees + [fee];
    assert more[|fees|].token == fee.token;
    forall i | 0 <= i < |fees|
      ensures fees[i].token in TokensOf(more)
    {
      assert more[i].token == fees[i].token;
    }
  }

  /** One more fee changes the worth of its own token only. */
  lemma OneMoreFee(weth: Token, price: (Token, nat) -> Option<nat>, fees: seq<Fee>, fee: Fee)
    ensures var t, before := fee.token, TotalOf(fees, fee.token);
      FullReward(weth, price, fees + [fee]) + (if t in TokensOf(fees) then Worth(weth, price, t, before) else 0) ==
        FullReward(weth, price, fees) + Worth(weth, price, t, before + fee.amount)
  {
    var t, more := fee.token, fees + [fee];
    var f := (u: Token) => Worth(weth, price, u, TotalOf(fees, u));
    var g := (u: Token) => Worth(weth, price, u, TotalOf(more, u));
    TokensOfMore(fees, fee);
    assert more[..|fees|] == fees;
    SumSplit(TokensOf(more), g, t);
    var rest := TokensOf(fees) - {t};
    assert TokensOf(more) - {t} == rest;
    SumSame(rest, f, g);
    if t in TokensOf(fees) {
      SumSplit(TokensOf(fees), f, t);
    } else {
      assert rest == TokensOf(fees);
    }
  }

  /** A fee in wrapped ether counts in full, whatever else is paid. */
  lemma WethCountsInFull(weth: Token, price: (Token, nat) -> Option<nat>, fees: seq<Fee>, amount: nat)
    ensures FullReward(weth, price, fees + [Fee(weth, amount)]) == FullReward(weth, price, fees) + amount
  {
    hide FullReward;
    OneMoreFee(weth, price, fees, Fee(weth, amount));
    if weth !in TokensOf(fees) {
      NotAmong(fees, weth);
    }
  }

  /** A fee in a token without a price counts for nothing. */
  lemma UnpricedCountsForNothing(weth: Token, price: (Token, nat) -> Option<nat>, fees: seq<Fee>, t: Token, amount: nat)
    requires t != weth && forall n :: price(t, n).None?
    ensures FullReward(weth, price, fees + [Fee(t, amount)]) == FullReward(weth, price, fees)
  {
    hide FullReward;
    OneMoreFee(weth, price, fees, Fee(t, amount));
  }

  /** The first fee in a priced token counts for its price. */
  lemma PricedCountsForItsPrice(weth: Token, price: (Token, nat) -> Option<nat>, fees: seq<Fee>, t: Token, amount: nat)
    requires t != weth && t !in TokensOf(fees) && price(t, amount).Some?
    ensures FullReward(weth, price, fees + [Fee(t, amount)]) == FullReward(weth, price, fees) + price(t, amount).value
  {
    hide FullReward;
    OneMoreFee(weth, price, fees, Fee(t, amount));
    NotAmong(fees, t);
  }
}
