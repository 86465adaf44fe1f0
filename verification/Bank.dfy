/** A bank whose books balance. */
module Bank {
  import opened Sums

  type Denom = nat

  datatype Account = AuctionModule | AuctionPool | CommunityPool | User(id: nat)

  type Balances = map<(Account, Denom), nat>

  function Amount(b: Balances, a: Account, d: Denom): nat {
    if (a, d) in b then b[(a, d)] else 0
  }

  function Entry(b: Balances, d: Denom): ((Account, Denom)) -> nat {
    (k: (Account, Denom)) => if k in b && k.1 == d then b[k] else 0
  }

  /** All there is of a denom. */
  ghost function Total(b: Balances, d: Denom): nat {
    Sum(b.Keys, Entry(b, d))
  }

  function Put(b: Balances, a: Account, d: Denom, n: nat): Balances {
    b[(a, d) := n]
  }

  function Move(b: Balances, from: Account, to: Account, d: Denom, n: nat): Balances
    requires n <= Amount(b, from, d)
  {
    var less := Put(b, from, d, Amount(b, from, d) - n);
    Put(less, to, d, Amount(less, to, d) + n)
  }

  lemma PutTotal(b: Balances, a: Account, d: Denom, n: nat, e: Denom)
    ensures Total(Put(b, a, d, n), e) + (if d == e then Amount(b, a, d) else 0) == Total(b, e) + (if d == e then n else 0)
  {
    var k := (a, d);
    var b' := Put(b, a, d, n);
    var rest := b.Keys - {k};
    assert b'.Keys - {k} == rest;
    SumSplit(b'.Keys, Entry(b', e), k);
    SumSame(rest, Entry(b, e), Entry(b', e));
    if k in b {
      SumSplit(b.Keys, Entry(b, e), k);
    } else {
      assert rest == b.Keys;
    }
  }

  /** A transfer conserves every denom. */
  lemma MoveConserves(b: Balances, from: Account, to: Account, d: Denom, n: nat, e: Denom)
    requires n <= Amount(b, from, d)
    ensures Total(Move(b, from, to, d, n), e) == Total(b, e)
  {
    hide Total;
    var less := Put(b, from, d, Amount(b, from, d) - n);
    PutTotal(b, from, d, Amount(b, from, d) - n, e);
    PutTotal(less, to, d, Amount(less, to, d) + n, e);
  }
}
