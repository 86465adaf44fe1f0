/** Normalised bridge power, and how far two validator sets are apart. */
module BridgePower {
  import opened Sums

  type EthAddress = nat

  /** Bridge power by Ethereum key. */
  type Members = map<EthAddress, nat>

  /** What one validator becomes when it holds all the power. */
  const FULL_POWER: nat := 4294967296

  const MAX_UINT32: nat := 4294967295

  function PowerAt(m: Members, x: EthAddress): nat {
    if x in m then m[x] else 0
  }

  function Gap(a: Members, b: Members, x: EthAddress): nat {
    if PowerAt(a, x) > PowerAt(b, x) then PowerAt(a, x) - PowerAt(b, x) else PowerAt(b, x) - PowerAt(a, x)
  }

  /** Total power of a coalition. */
  ghost function Power(m: Members, s: set<EthAddress>): nat {
    Sum(s, (x: EthAddress) => PowerAt(m, x))
  }

  /** Total change of power between two sets, over the given keys. */
  ghost function Drift(a: Members, b: Members, s: set<EthAddress>): nat {
    Sum(s, (x: EthAddress) => Gap(a, b, x))
  }

  lemma PowerSplit(m: Members, s: set<EthAddress>, x: EthAddress)
    requires x in s
    ensures Power(m, s) == PowerAt(m, x) + Power(m, s - {x})
  {
    SumSplit(s, (x: EthAddress) => PowerAt(m, x), x);
  }

  lemma DriftSplit(a: Members, b: Members, s: set<EthAddress>, x: EthAddress)
    requires x in s
    ensures Drift(a, b, s) == Gap(a, b, x) + Drift(a, b, s - {x})
  {
    SumSplit(s, (x: EthAddress) => Gap(a, b, x), x);
  }

  /** The change of every coalition's power is bounded by the drift over all keys that changed. */
  lemma {:induction false} DriftBoundsCoalition(a: Members, b: Members, s: set<EthAddress>, all: set<EthAddress>)
    requires forall x :: x in s - all ==> Gap(a, b, x) == 0
    ensures Power(a, s) <= Power(b, s) + Drift(a, b, all)
    ensures Power(b, s) <= Power(a, s) + Drift(a, b, all)
    decreases s
  {
    if s != {} {
      var x :| x in s;
      PowerSplit(a, s, x);
      PowerSplit(b, s, x);
      DriftBoundsCoalition(a, b, s - {x}, all - {x});
      if x in all {
        DriftSplit(a, b, all, x);
      } else {
        assert x in s - all;
        assert all - {x} == all;
      }
    }
  }

  /** Those that hold more in `a` than in `b`. */
  function Gainers(a: Members, b: Members, all: set<EthAddress>): set<EthAddress> {
    set x | x in all && PowerAt(a, x) > PowerAt(b, x)
  }

  lemma {:induction false} DriftIsGainsAndLosses(a: Members, b: Members, all: set<EthAddress>)
    ensures var gain, lose := Gainers(a, b, all), Gainers(b, a, all);
      Drift(a, b, all) == (Power(a, gain) - Power(b, gain)) + (Power(b, lose) - Power(a, lose))
    decreases all
  {
    hide Power, Drift;
    if all == {} {
      NoMembers(a, b, all);
      assert Gainers(a, b, all) == {} && Gainers(b, a, all) == {};
    } else {
      var x :| x in all;
      var rest := all - {x};
      DriftIsGainsAndLosses(a, b, rest);
      DriftSplit(a, b, all, x);
      GainerSplit(a, b, all, x);
      GainerSplit(b, a, all, x);
    }
  }

  lemma NoMembers(a: Members, b: Members, none: set<EthAddress>)
    requires none == {}
    ensures Drift(a, b, none) == 0 && Power(a, none) == 0 && Power(b, none) == 0
  {
  }

  lemma GainerSplit(a: Members, b: Members, all: set<EthAddress>, x: EthAddress)
    requires x in all
    ensures var gain, rest := Gainers(a, b, all), Gainers(a, b, all - {x});
      Power(a, gain) - Power(b, gain) == Power(a, rest) - Power(b, rest) + if PowerAt(a, x) > PowerAt(b, x) then Gap(a, b, x) else 0
  {
    hide Power;
    var gain, rest := Gainers(a, b, all), Gainers(a, b, all - {x});
    if x in gain {
      assert gain - {x} == rest;
      PowerSplit(a, gain, x);
      PowerSplit(b, gain, x);
    } else {
      assert gain == rest;
    }
  }

  /** The bound is tight up to a factor of two: some coalition's power has changed by at least half the drift. */
  lemma DriftHasWitness(a: Members, b: Members, all: set<EthAddress>) returns (s: set<EthAddress>)
    ensures s <= all
    ensures Drift(a, b, all) <= 2 * (Power(a, s) - Power(b, s)) || Drift(a, b, all) <= 2 * (Power(b, s) - Power(a, s))
  {
    hide Power, Drift;
    DriftIsGainsAndLosses(a, b, all);
    var gain, lose := Gainers(a, b, all), Gainers(b, a, all);
    s := if Power(a, gain) - Power(b, gain) >= Power(b, lose) - Power(a, lose) then gain else lose;
  }

  function Difference(a: Members, b: Members, x: EthAddress): int {
    PowerAt(a, x) - PowerAt(b, x)
  }

  function Abs(i: int): nat {
    if i < 0 then -i else i
  }

  /** The map the source fills: powers of `b`, then minus the powers of `c`. Map iteration order is arbitrary. */
  method PowerDifferences(b: Members, c: Members) returns (powers: map<EthAddress, int>)
    ensures powers.Keys == b.Keys + c.Keys
    ensures forall x :: x in powers ==> powers[x] == Difference(b, c, x)
  {
    powers := map x | x in b :: b[x] as int;
    var todo := c.Keys;
    while todo != {}
      invariant todo <= c.Keys && powers.Keys == b.Keys + (c.Keys - todo)
      invariant forall x :: x in powers ==> powers[x] == if x in todo then PowerAt(b, x) else Difference(b, c, x)
      decreases todo
    {
      var x :| x in todo;
      if x in powers {
        powers := powers[x := powers[x] - c[x]];
      } else {
        var p: int := c[x];
        powers := powers[x := -p];
      }
      todo := todo - {x};
    }
  }

  method PowerDiff(b: Members, c: Members) returns (delta: nat)
    ensures delta == Drift(b, c, b.Keys + c.Keys)
  {
    var powers := PowerDifferences(b, c);
    delta := 0;
    var todo := powers.Keys;
    while todo != {}
      invariant todo <= powers.Keys
      invariant delta + Drift(b, c, todo) == Drift(b, c, powers.Keys)
      decreases todo
    {
      var x :| x in todo;
      DriftSplit(b, c, todo, x);
      delta := delta + Abs(powers[x]);
      todo := todo - {x};
    }
  }

  /** More than 5% of the whole 32-bit range: no integer is near enough to the boundary for rounding to matter. */
  predicate Significant(delta: nat) {
    20 * delta > MAX_UINT32
  }

  // ---------------------------------------------------------------------------------------------
  // Normalising Cosmos power

  /** Scaled to the full power; the division truncates. */
  function Normalised(raw: Members, total: nat): Members
    requires total > 0
  {
    map x | x in raw :: raw[x] * FULL_POWER / total
  }

  lemma {:induction false} NormalisedPart(raw: Members, total: nat, s: set<EthAddress>)
    requires total > 0
    ensures total * Power(Normalised(raw, total), s) <= FULL_POWER * Power(raw, s) <= total * (Power(Normalised(raw, total), s) + |s|)
    ensures s != {} ==> FULL_POWER * Power(raw, s) < total * (Power(Normalised(raw, total), s) + |s|)
  {
    if s != {} {
      var x :| x in s;
      PowerSplit(raw, s, x);
      PowerSplit(Normalised(raw, total), s, x);
      NormalisedPart(raw, total, s - {x});
      var n := PowerAt(Normalised(raw, total), x);
      assert total * n <= FULL_POWER * PowerAt(raw, x) < total * (n + 1) by {
        Truncates(PowerAt(raw, x) * FULL_POWER, total);
      }
      var rest := Power(Normalised(raw, total), s - {x});
      assert |s - {x}| == |s| - 1;
      Distributes(total, n, rest, |s| - 1);
    }
  }

  lemma Distributes(t: nat, n: nat, rest: nat, k: nat)
    ensures t * (n + rest) == t * n + t * rest
    ensures t * (n + 1) + t * (rest + k) == t * (n + rest + (k + 1))
  {
  }

  lemma Truncates(a: nat, b: nat)
    requires b > 0
    ensures b * (a / b) <= a < b * (a / b + 1)
  {
  }

  /** Truncation loses less than one unit for each validator. */
  lemma NormalisedTotal(raw: Members, total: nat)
    requires total == Power(raw, raw.Keys) && total > 0
    ensures Power(Normalised(raw, total), raw.Keys) <= 4294967296 < Power(Normalised(raw, total), raw.Keys) + |raw|
  {
    NormalisedPart(raw, total, raw.Keys);
    var sum := Power(Normalised(raw, total), raw.Keys);
    assert raw.Keys != {};
    assert |raw.Keys| == |raw|;
    Cancels(total, sum, FULL_POWER);
    CancelsStrictly(total, FULL_POWER, sum + |raw|);
  }

  lemma Cancels(t: nat, a: nat, b: nat)
    requires t > 0 && t * a <= b * t
    ensures a <= b
  {
  }

  lemma CancelsStrictly(t: nat, a: nat, b: nat)
    requires a * t < t * b
    ensures a < b
  {
  }
}
