/**
Vote counting for attestations of Ethereum events.

Validators are numbered; `Powers` is the staking power table of one block, so a validator that is
not in the table (never bonded, or unbonded) has power 0, as GetLastValidatorPower reports. The
total power is the sum of the table.
 */
module Quorum {

  type Validator = nat
  type Powers = seq<nat>

  /** Percentage of the total power an attestation must exceed. */
  const VOTES_THRESHOLD := 66

  function PowerOf(powers: Powers, v: Validator): nat {
    if v < |powers| then powers[v] else 0
  }

  function TotalPower(powers: Powers): nat {
    if powers == [] then 0 else TotalPower(powers[..|powers| - 1]) + powers[|powers| - 1]
  }

  /** Integer division truncates; powers are never negative, so this is the source's Quo. */
  function RequiredPower(powers: Powers): nat {
    VOTES_THRESHOLD * TotalPower(powers) / 100
  }

  function VotePower(powers: Powers, votes: seq<Validator>): nat {
    if votes == [] then 0
    else VotePower(powers, votes[..|votes| - 1]) + PowerOf(powers, votes[|votes| - 1])
  }

  predicate HasQuorum(powers: Powers, votes: seq<Validator>) {
    VotePower(powers, votes) > RequiredPower(powers)
  }

  predicate Distinct(votes: seq<Validator>) {
    forall i, j :: 0 <= i < j < |votes| ==> votes[i] != votes[j]
  }

  ghost function Voters(votes: seq<Validator>): set<Validator> {
    set v | v in votes
  }

  /** The power of a set of validators, summed over the table rather than over the votes. */
  ghost function SetPower(powers: Powers, vs: set<Validator>): nat {
    if powers == [] then 0
    else
      SetPower(powers[..|powers| - 1], vs) + if |powers| - 1 in vs then powers[|powers| - 1] else 0
  }

  lemma {:induction false} SetPowerOfUnion(powers: Powers, a: set<Validator>, b: set<Validator>)
    requires a !! b
    ensures SetPower(powers, a + b) == SetPower(powers, a) + SetPower(powers, b)
    ensures SetPower(powers, a + b) <= TotalPower(powers)
  {
    if powers != [] {
      SetPowerOfUnion(powers[..|powers| - 1], a, b);
    }
  }

  lemma {:induction false} SetPowerOfOne(powers: Powers, v: Validator)
    ensures SetPower(powers, {v}) == PowerOf(powers, v)
  {
    if powers != [] {
      SetPowerOfOne(powers[..|powers| - 1], v);
      if v < |powers| - 1 {
        assert powers[..|powers| - 1][v] == powers[v];
      }
    }
  }

  lemma {:induction false} SetPowerOfNone(powers: Powers)
    ensures SetPower(powers, {}) == 0
  {
    if powers != [] {
      SetPowerOfNone(powers[..|powers| - 1]);
    }
  }

  /** Without repeated votes, adding up the votes is adding up the voters' table entries. */
  lemma {:induction false} VotePowerIsSetPower(powers: Powers, votes: seq<Validator>)
    requires Distinct(votes)
    ensures VotePower(powers, votes) == SetPower(powers, Voters(votes))
  {
    if votes == [] {
      SetPowerOfNone(powers);
      assert Voters(votes) == {};
    } else {
      var front, last := votes[..|votes| - 1], votes[|votes| - 1];
      VotePowerIsSetPower(powers, front);
      SetPowerOfOne(powers, last);
      SetPowerOfUnion(powers, Voters(front), {last});
      assert Voters(votes) == Voters(front) + {last};
    }
  }

  /** Counting may stop as soon as a prefix of the votes is over the threshold. */
  lemma {:induction false} VotePowerGrows(powers: Powers, votes: seq<Validator>, n: nat)
    requires n <= |votes|
    ensures VotePower(powers, votes[..n]) <= VotePower(powers, votes)
  {
    if n == |votes| {
      assert votes[..n] == votes;
    } else {
      VotePowerGrows(powers, votes[..|votes| - 1], n);
      assert votes[..|votes| - 1][..n] == votes[..n];
    }
  }

  /**
  Weighted quorum intersection: two attestations that share no voter cannot both be over the
  threshold, whatever the powers are.
   */
  lemma QuorumsIntersect(powers: Powers, a: seq<Validator>, b: seq<Validator>)
    requires Distinct(a) && Distinct(b)
    requires HasQuorum(powers, a) && HasQuorum(powers, b)
    ensures exists v :: v in a && v in b
  {
    if Voters(a) !! Voters(b) {
      VotePowerIsSetPower(powers, a);
      VotePowerIsSetPower(powers, b);
      SetPowerOfUnion(powers, Voters(a), Voters(b));
      assert false;
    }
    var v :| v in Voters(a) && v in Voters(b);
    assert v in a && v in b;
  }

  /** The validators outside `honest` cannot reach the threshold among themselves. */
  ghost predicate HonestMajority(powers: Powers, honest: set<Validator>) {
    TotalPower(powers) - SetPower(powers, honest) <= RequiredPower(powers)
  }

  /** Truncating the threshold makes no difference: passing is holding more than 66% of the power. */
  lemma QuorumIff(powers: Powers, votes: seq<Validator>)
    ensures HasQuorum(powers, votes) <==> 100 * VotePower(powers, votes) > 66 * TotalPower(powers)
  {
  }

  /** The assumption on honest power is that it is at least 34%. */
  lemma HonestMajorityIff(powers: Powers, honest: set<Validator>)
    ensures HonestMajority(powers, honest) <==> 100 * SetPower(powers, honest) >= 34 * TotalPower(powers)
  {
  }

  /** Then every quorum holds an honest vote. */
  lemma QuorumHasHonestVote(powers: Powers, honest: set<Validator>, votes: seq<Validator>)
    requires HonestMajority(powers, honest) && Distinct(votes) && HasQuorum(powers, votes)
    ensures exists v :: v in votes && v in honest
  {
    if Voters(votes) !! honest {
      VotePowerIsSetPower(powers, votes);
      SetPowerOfUnion(powers, Voters(votes), honest);
      assert false;
    }
    var v :| v in Voters(votes) && v in honest;
    assert v in votes;
  }
}
