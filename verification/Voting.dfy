/** Votes are counted and kept, so what enough voting power claims is observed. */
module Voting {
  import opened Quorum
  import opened Ledger
  import opened Attestations
  import opened Keeper
  import opened TwoChain

  // ---------------------------------------------------------------------------------------------
  // One vote

  /** Who has voted for the claim. */
  ghost function VotersFor(c: Chain, claim: Claim): set<Validator> {
    set i, v | 0 <= i < |AttestationsAt(c, claim.nonce)| && AttestationsAt(c, claim.nonce)[i].claim == claim
      && v in AttestationsAt(c, claim.nonce)[i].votes :: v
  }

  /** Attestation `i` carries the claim and no other does. */
  ghost predicate OnlyOne(atts: seq<Attestation>, i: nat, claim: Claim) {
    i < |atts| && atts[i].claim == claim && forall j :: 0 <= j < |atts| && j != i ==> atts[j].claim != claim
  }

  /** The nonce a validator's next claim must have; the first claim of all may repeat the last observed event. */
  function NextNonce(c: Chain, v: Validator): nat {
    if v in c.validatorNonce then c.validatorNonce[v] + 1 else if c.observedNonce == 0 then 1 else c.observedNonce
  }

  /** Everything but the one claim, and the validator's nonce, is as before. */
  ghost predicate OnlyVoteAdded(c: Chain, v: Validator, claim: Claim, c': Chain) {
    && c' == c.(attestations := c'.attestations, validatorNonce := c.validatorNonce[v := claim.nonce])
    && c'.attestations.Keys == c.attestations.Keys + {claim.nonce}
    && (forall m :: m in c.attestations && m != claim.nonce ==> c'.attestations[m] == c.attestations[m])
    && (forall a: Attestation :: a.claim != claim ==> (a in AttestationsAt(c', claim.nonce) <==> a in AttestationsAt(c, claim.nonce)))
  }

  /** The one attestation of the claim has its earlier voters and the new one, and is not observed by being voted for. */
  ghost predicate Counted(c: Chain, v: Validator, claim: Claim, c': Chain, i: nat) {
    var atts := AttestationsAt(c', claim.nonce);
    && OnlyOne(atts, i, claim)
    && v !in VotersFor(c, claim) && Voters(atts[i].votes) == VotersFor(c, claim) + {v}
    && |atts[i].votes| == |VotersFor(c, claim)| + 1
    && (atts[i].observed ==> exists b :: b in AttestationsAt(c, claim.nonce) && b.claim == claim && b.observed)
  }

  lemma VotersOfOne(c: Chain, claim: Claim, i: nat)
    requires OnlyOne(AttestationsAt(c, claim.nonce), i, claim)
    ensures VotersFor(c, claim) == Voters(AttestationsAt(c, claim.nonce)[i].votes)
  {
  }

  lemma VotersOfNone(c: Chain, claim: Claim)
    requires forall i :: 0 <= i < |AttestationsAt(c, claim.nonce)| ==> AttestationsAt(c, claim.nonce)[i].claim != claim
    ensures VotersFor(c, claim) == {}
  {
  }

  lemma {:induction false} DistinctCount(votes: seq<Validator>)
    requires Distinct(votes)
    ensures |Voters(votes)| == |votes|
  {
    if votes == [] {
      assert Voters(votes) == {};
    } else {
      var front, last := votes[..|votes| - 1], votes[|votes| - 1];
      DistinctCount(front);
      assert Voters(votes) == Voters(front) + {last};
    }
  }

  lemma OthersStay(c: Chain, v: Validator, claim: Claim)
    requires claim.nonce == NextNonce(c, v)
    ensures OnlyVoteAdded(c, v, claim, Attest(c, v, claim))
  {
    var c' := Attest(c, v, claim);
    var atts, atts' := AttestationsAt(c, claim.nonce), AttestationsAt(c', claim.nonce);
    forall a: Attestation | a.claim != claim
      ensures a in atts' <==> a in atts
    {
      if a in atts {
        var k :| 0 <= k < |atts| && atts[k] == a;
        assert atts'[k] == a;
      }
    }
  }

  lemma FirstVote(c: Chain, v: Validator, claim: Claim)
    requires claim.nonce == NextNonce(c, v)
    requires IndexOf(AttestationsAt(c, claim.nonce), claim) == |AttestationsAt(c, claim.nonce)|
    ensures Counted(c, v, claim, Attest(c, v, claim), |AttestationsAt(c, claim.nonce)|)
  {
    VotersOfNone(c, claim);
  }

  lemma FurtherVote(c: Chain, v: Validator, claim: Claim, i: nat)
    requires claim.nonce == NextNonce(c, v) && OneVotePerNonce(c)
    requires i == IndexOf(AttestationsAt(c, claim.nonce), claim) && i < |AttestationsAt(c, claim.nonce)|
    ensures Counted(c, v, claim, Attest(c, v, claim), i)
  {
    hide OneVotePerNonce;
    var atts := AttestationsAt(c, claim.nonce);
    ClaimsApart(c, claim.nonce, i);
    NotYetVoted(c, v, claim, i);
    VotersOfOne(c, claim, i);
    DistinctCount(atts[i].votes);
    var after := AttestationsAt(Attest(c, v, claim), claim.nonce);
    assert after == atts[i := atts[i].(votes := atts[i].votes + [v])];
    assert atts[i] in atts;
    assert Voters(after[i].votes) == Voters(atts[i].votes) + {v};
  }

  lemma NotYetVoted(c: Chain, v: Validator, claim: Claim, i: nat)
    requires OneVotePerNonce(c) && claim.nonce == NextNonce(c, v) && i < |AttestationsAt(c, claim.nonce)|
    ensures v !in AttestationsAt(c, claim.nonce)[i].votes && Distinct(AttestationsAt(c, claim.nonce)[i].votes)
  {
    assert Voted(c, claim.nonce, AttestationsAt(c, claim.nonce)[i]);
  }

  /**
  A claim for the validator's next nonce is counted exactly once, on the one attestation of that claim, and nothing
  else changes. Any other claim is refused.
   */
  lemma VoteIsCounted(c: Chain, v: Validator, claim: Claim)
    requires OneVotePerNonce(c)
    ensures claim.nonce != NextNonce(c, v) ==> Attest(c, v, claim) == c
    ensures claim.nonce == NextNonce(c, v) ==>
      && OnlyVoteAdded(c, v, claim, Attest(c, v, claim))
      && exists i: nat :: Counted(c, v, claim, Attest(c, v, claim), i)
  {
    hide OneVotePerNonce, Counted, OnlyVoteAdded;
    if claim.nonce == NextNonce(c, v) {
      OthersStay(c, v, claim);
      var i := IndexOf(AttestationsAt(c, claim.nonce), claim);
      if i < |AttestationsAt(c, claim.nonce)| {
        FurtherVote(c, v, claim, i);
      } else {
        FirstVote(c, v, claim);
      }
    }
  }

  // ---------------------------------------------------------------------------------------------
  // Enough votes

  /** Validators vote for one claim, one after the other. */
  function VoteAll(c: Chain, votes: seq<Validator>, claim: Claim): Chain {
    if votes == [] then c else Attest(VoteAll(c, votes[..|votes| - 1], claim), votes[|votes| - 1], claim)
  }

  lemma {:induction false} VotesAddUp(c: Chain, votes: seq<Validator>, claim: Claim)
    requires OneVotePerNonce(c) && Distinct(votes)
    requires forall v :: v in votes ==> claim.nonce == NextNonce(c, v)
    ensures var c' := VoteAll(c, votes, claim);
      && OneVotePerNonce(c')
      && VotersFor(c', claim) == VotersFor(c, claim) + Voters(votes)
      && c' == c.(attestations := c'.attestations, validatorNonce := c'.validatorNonce)
      && (forall v :: v !in votes ==> NextNonce(c', v) == NextNonce(c, v))
  {
    hide OneVotePerNonce, Attest, VotersFor;
    if votes == [] {
      assert Voters(votes) == {};
    } else {
      var front, last := votes[..|votes| - 1], votes[|votes| - 1];
      VotesAddUp(c, front, claim);
      var d := VoteAll(c, front, claim);
      assert last !in front;
      VoteIsCounted(d, last, claim);
      AttestKeepsOneVotePerNonce(d, last, claim);
      var i: nat :| Counted(d, last, claim, Attest(d, last, claim), i);
      VotersOfOne(Attest(d, last, claim), claim, i);
      assert Voters(votes) == Voters(front) + {last};
    }
  }

  lemma {:induction false} SetPowerGrows(powers: Powers, a: set<Validator>, b: set<Validator>)
    requires a <= b
    ensures SetPower(powers, a) <= SetPower(powers, b)
  {
    if powers != [] {
      SetPowerGrows(powers[..|powers| - 1], a, b);
    }
  }

  lemma EnoughVotersPass(c: Chain, powers: Powers, n: nat, i: nat, vs: set<Validator>)
    requires OneVotePerNonce(c) && n in c.attestations && i < |c.attestations[n]|
    requires vs <= Voters(c.attestations[n][i].votes) && SetPower(powers, vs) > RequiredPower(powers)
    ensures HasQuorum(powers, c.attestations[n][i].votes)
  {
    var att := c.attestations[n][i];
    assert Voted(c, n, att);
    VotePowerIsSetPower(powers, att.votes);
    SetPowerGrows(powers, vs, Voters(att.votes));
  }

  /** The claim has its one attestation at its nonce, and that one is observed. */
  ghost predicate IsObserved(c: Chain, claim: Claim) {
    exists i: nat :: OnlyOne(AttestationsAt(c, claim.nonce), i, claim) && AttestationsAt(c, claim.nonce)[i].observed
  }

  /** A claim for the next nonce whose voters have enough power is observed by the next tally, unless that halts. */
  lemma EnoughIsObserved(c: Chain, powers: Powers, claim: Claim)
    requires OneVotePerNonce(c) && c.active && !c.halted && claim.nonce == c.observedNonce + 1
    requires SetPower(powers, VotersFor(c, claim)) > RequiredPower(powers)
    ensures var t := Tally(c, powers); t.halted || (t.observedNonce >= claim.nonce && IsObserved(t, claim))
  {
    hide OneVotePerNonce, HasQuorum, Tally;
    var n := claim.nonce;
    if VotersFor(c, claim) == {} {
      SetPowerOfNone(powers);
      assert false;
    }
    var v :| v in VotersFor(c, claim);
    var i :| 0 <= i < |AttestationsAt(c, n)| && AttestationsAt(c, n)[i].claim == claim && v in AttestationsAt(c, n)[i].votes;
    ClaimsApart(c, n, i);
    VotersOfOne(c, claim, i);
    EnoughVotersPass(c, powers, n, i, VotersFor(c, claim));
    assert Passing(c, powers, n);
    TallyIsExact(c, powers);
    var t := Tally(c, powers);
    if !t.halted {
      assert OneMarked(powers, c.attestations[n], t.attestations[n]);
      var k :| 0 <= k < |c.attestations[n]| && HasQuorum(powers, c.attestations[n][k].votes) && !c.attestations[n][k].observed
        && t.attestations[n] == c.attestations[n][k := c.attestations[n][k].(observed := true)];
      OnlyOnePasses(c, powers, n, i, k);
      assert OnlyOne(AttestationsAt(t, n), i, claim) && AttestationsAt(t, n)[i].observed;
    }
  }

  lemma ClaimsApart(c: Chain, n: nat, i: nat)
    requires OneVotePerNonce(c) && n in c.attestations && i < |c.attestations[n]|
    ensures OnlyOne(c.attestations[n], i, c.attestations[n][i].claim)
  {
    forall j | 0 <= j < |c.attestations[n]| && j != i
      ensures c.attestations[n][j].claim != c.attestations[n][i].claim
    {
      assert i < j ==> Apart(c.attestations[n][i], c.attestations[n][j]);
      assert j < i ==> Apart(c.attestations[n][j], c.attestations[n][i]);
    }
  }

  /** Voters with more than the required power, each voting for the next event, get it observed by the next tally. */
  lemma MajorityIsObserved(c: Chain, powers: Powers, votes: seq<Validator>, claim: Claim)
    requires OneVotePerNonce(c) && c.active && !c.halted && claim.nonce == c.observedNonce + 1
    requires Distinct(votes) && HasQuorum(powers, votes)
    requires forall v :: v in votes ==> claim.nonce == NextNonce(c, v)
    ensures var t := Tally(VoteAll(c, votes, claim), powers);
      t.halted || (t.observedNonce >= claim.nonce && IsObserved(t, claim))
  {
    hide OneVotePerNonce, VoteAll, Tally, VotersFor, IsObserved;
    VotesAddUp(c, votes, claim);
    var c' := VoteAll(c, votes, claim);
    VotePowerIsSetPower(powers, votes);
    SetPowerGrows(powers, Voters(votes), VotersFor(c', claim));
    EnoughIsObserved(c', powers, claim);
  }

  // ---------------------------------------------------------------------------------------------
  // Votes are never lost

  ghost predicate HasVoted(c: Chain, v: Validator, n: nat) {
    exists i :: 0 <= i < |AttestationsAt(c, n)| && v in AttestationsAt(c, n)[i].votes
  }

  /** Every validator's vote on every event it has claimed and that is still to be observed is there. */
  ghost predicate VotesKept(c: Chain) {
    forall v, n :: v in c.validatorNonce && c.observedNonce < n <= c.validatorNonce[v] ==> HasVoted(c, v, n)
  }

  lemma AttestKeepsVotes(c: Chain, v: Validator, claim: Claim)
    requires OneVotePerNonce(c) && VotesKept(c)
    ensures VotesKept(Attest(c, v, claim))
  {
    hide OneVotePerNonce, Attest;
    VoteIsCounted(c, v, claim);
    if claim.nonce == NextNonce(c, v) {
      var c', n := Attest(c, v, claim), claim.nonce;
      var i: nat :| Counted(c, v, claim, c', i);
      forall u, m | u in c'.validatorNonce && c'.observedNonce < m <= c'.validatorNonce[u]
        ensures HasVoted(c', u, m)
      {
        if u == v && m == n {
          assert v in AttestationsAt(c', n)[i].votes;
        } else {
          assert HasVoted(c, u, m);
          var j :| 0 <= j < |AttestationsAt(c, m)| && u in AttestationsAt(c, m)[j].votes;
          var a := AttestationsAt(c, m)[j];
          if m == n && a.claim == claim {
            assert u in VotersFor(c, claim) && u in AttestationsAt(c', n)[i].votes;
          } else {
            assert a in AttestationsAt(c', m);
          }
        }
      }
    }
  }

  lemma ResetKeepsVotes(c: Chain, cutoff: nat)
    requires VotesKept(c)
    ensures VotesKept(Reset(c, cutoff))
  {
    hide VotesKept;
    if cutoff >= c.observedNonce && cutoff > 0 {
      ResetForgets(c, cutoff);
      var c' := Reset(c, cutoff);
      forall v, n | v in c'.validatorNonce && c'.observedNonce < n <= c'.validatorNonce[v]
        ensures HasVoted(c', v, n)
      {
        VoteKept(c, v, n);
        assert AttestationsAt(c', n) == AttestationsAt(c, n);
      }
      AllKept(c');
    }
  }

  lemma VoteKept(c: Chain, v: Validator, n: nat)
    requires VotesKept(c) && v in c.validatorNonce && c.observedNonce < n <= c.validatorNonce[v]
    ensures HasVoted(c, v, n)
  {
  }

  lemma AllKept(c: Chain)
    requires forall v, n :: v in c.validatorNonce && c.observedNonce < n <= c.validatorNonce[v] ==> HasVoted(c, v, n)
    ensures VotesKept(c)
  {
  }

  /**
  An effective reset forgets exactly what is above the cutoff: no attestation is left there, the others stay, and
  every validator stands where it stood or at the cutoff, whichever is less. Any other reset changes nothing.
   */
  lemma ResetForgets(c: Chain, cutoff: nat)
    requires VotesKept(c)
    ensures cutoff < c.observedNonce || cutoff == 0 ==> Reset(c, cutoff) == c
    ensures cutoff >= c.observedNonce && cutoff > 0 ==>
      var c' := Reset(c, cutoff);
      && c' == c.(attestations := c'.attestations, validatorNonce := c'.validatorNonce)
      && (forall n :: n in c'.attestations <==> n in c.attestations && n <= cutoff)
      && (forall n :: n in c'.attestations ==> c'.attestations[n] == c.attestations[n])
      && c'.validatorNonce.Keys == c.validatorNonce.Keys
      && (forall v :: v in c.validatorNonce ==>
            c'.validatorNonce[v] == if c.validatorNonce[v] > cutoff then cutoff else c.validatorNonce[v])
  {
    if cutoff >= c.observedNonce && cutoff > 0 {
      forall v | v in c.validatorNonce && c.validatorNonce[v] > cutoff
        ensures v in VotersAbove(c, cutoff)
      {
        var n := c.validatorNonce[v];
        assert HasVoted(c, v, n);
        var i :| 0 <= i < |AttestationsAt(c, n)| && v in AttestationsAt(c, n)[i].votes;
        assert n in c.attestations && v in c.attestations[n][i].votes;
      }
    }
  }

  lemma MarkingKeepsVotes(c: Chain, n: nat, i: nat, d: Chain)
    requires VotesKept(c) && n in c.attestations && i < |c.attestations[n]|
    requires d.validatorNonce == c.validatorNonce && d.observedNonce >= c.observedNonce
    requires d.attestations == c.attestations[n := c.attestations[n][i := c.attestations[n][i].(observed := true)]]
    ensures VotesKept(d)
  {
    forall v, m | v in d.validatorNonce && d.observedNonce < m <= d.validatorNonce[v]
      ensures HasVoted(d, v, m)
    {
      assert HasVoted(c, v, m);
      var j :| 0 <= j < |AttestationsAt(c, m)| && v in AttestationsAt(c, m)[j].votes;
      assert v in AttestationsAt(d, m)[j].votes;
    }
  }

  lemma TryKeepsVotes(c: Chain, powers: Powers, n: nat, i: nat)
    requires VotesKept(c) && n in c.attestations && i < |c.attestations[n]|
    ensures VotesKept(Try(c, powers, n, i))
  {
    hide VotesKept, Handle, HasQuorum;
    var c' := Try(c, powers, n, i);
    if c'.attestations == c.attestations && c'.observedNonce == c.observedNonce {
      SameVotes(c, c');
    } else {
      MarkingKeepsVotes(c, n, i, c');
    }
  }

  lemma SameVotes(c: Chain, d: Chain)
    requires VotesKept(c) && d.validatorNonce == c.validatorNonce && d.observedNonce == c.observedNonce
    requires forall n :: n > c.observedNonce ==> AttestationsAt(d, n) == AttestationsAt(c, n)
    ensures VotesKept(d)
  {
    forall v, n | v in d.validatorNonce && d.observedNonce < n <= d.validatorNonce[v]
      ensures HasVoted(d, v, n)
    {
      assert HasVoted(c, v, n);
    }
  }

  lemma {:induction false} TallyKeepsVotes(c: Chain, powers: Powers)
    requires VotesKept(c)
    ensures VotesKept(Tally(c, powers))
    decreases Ahead(c)
  {
    hide VotesKept, TryNext, HasNext, Tally;
    TallyTurns(c, powers);
    if c.active && !c.halted && HasNext(c, powers) {
      NextTry(c, powers);
      if !TryNext(c, powers).halted {
        TallyKeepsVotes(TryNext(c, powers), powers);
      }
    }
  }

  lemma NextTry(c: Chain, powers: Powers)
    requires VotesKept(c) && HasNext(c, powers)
    ensures VotesKept(TryNext(c, powers))
    ensures !TryNext(c, powers).halted ==> Ahead(TryNext(c, powers)) < Ahead(c)
  {
    hide VotesKept, Try;
    var n := c.observedNonce + 1;
    var i := FirstHit(powers, AttestationsAt(c, n));
    TryKeepsVotes(c, powers, n, i);
    TryAdvances(c, powers, i);
  }

  lemma BlockKeepsVotes(c: Chain, powers: Powers)
    requires VotesKept(c)
    ensures VotesKept(EndBlock(c, powers))
  {
    hide VotesKept, Tally, Returnable;
    TallyKeepsVotes(c, powers);
    var t := Tally(c, powers);
    if !t.halted {
      SameVotes(t, Cleanup(t));
      if !Cleanup(t).halted {
        PruneKeepsUnobserved(Cleanup(t));
        SameVotes(Cleanup(t), PruneAttestations(Cleanup(t)));
      }
    }
  }

  lemma StepKeepsVotes(w: World, s: Step)
    requires OneVotePerNonce(w.chain) && VotesKept(w.chain)
    ensures VotesKept(Next(w, s).chain)
  {
    hide VotesKept, OneVotePerNonce, Attest, Reset, EndBlock;
    match s
    case Vote(v, claim) => AttestKeepsVotes(w.chain, v, claim);
    case ResetOracle(cutoff) => ResetKeepsVotes(w.chain, cutoff);
    case RunEndBlock(powers) => BlockKeepsVotes(w.chain, powers);
    case _ => SameVotes(w.chain, Next(w, s).chain);
  }

  /** In every run of the two chains no vote on an event still to be observed is ever lost. */
  lemma {:induction false} EveryRunKeepsVotes(ws: seq<World>, steps: seq<Step>, honest: set<Validator>,
        deployHeight: nat, k: nat)
    requires IsRun(ws, steps, honest, deployHeight) && k <= |steps|
    ensures VotesKept(ws[k].chain)
  {
    hide VotesKept, Next, Enabled;
    if k == 0 {
      AllKept(ws[0].chain);
    } else {
      EveryRunKeepsVotes(ws, steps, honest, deployHeight, k - 1);
      EveryRunKeepsInv(ws, steps, honest, deployHeight, k - 1);
      assert ws[k - 1 + 1] == Next(ws[k - 1], steps[k - 1]);
      StepKeepsVotes(ws[k - 1], steps[k - 1]);
    }
  }

  // ---------------------------------------------------------------------------------------------
  // What enough honest validators have claimed is observed

  /** All honest voters of one nonce stand on one attestation, the true one. */
  lemma HonestAgree(w: World, honest: set<Validator>, n: nat, vs: set<Validator>)
    requires Inv(w, honest) && vs <= honest && vs != {} && forall v :: v in vs ==> HasVoted(w.chain, v, n)
    ensures exists i :: 0 <= i < |AttestationsAt(w.chain, n)| && vs <= Voters(AttestationsAt(w.chain, n)[i].votes)
  {
    hide LedgerOk, LogOk;
    var c := w.chain;
    var atts := AttestationsAt(c, n);
    forall j, v | 0 <= j < |atts| && v in atts[j].votes && v in honest
      ensures n > 0 && n <= |w.eth.log| && atts[j].claim == w.eth.log[n - 1]
    {
      assert HonestVote(w.eth.log, honest, atts[j]) && Voted(c, n, atts[j]);
    }
    var v :| v in vs;
    assert HasVoted(c, v, n);
    var i :| 0 <= i < |atts| && v in atts[i].votes;
    ClaimsApart(c, n, i);
    forall u | u in vs
      ensures u in atts[i].votes
    {
      assert HasVoted(c, u, n);
    }
  }

  /** A nonce that enough honest validators have claimed passes. */
  lemma HonestPass(w: World, honest: set<Validator>, powers: Powers, n: nat, vs: set<Validator>)
    requires Inv(w, honest) && vs <= honest && SetPower(powers, vs) > RequiredPower(powers)
    requires forall v :: v in vs ==> HasVoted(w.chain, v, n)
    ensures Passing(w.chain, powers, n)
  {
    if vs == {} {
      SetPowerOfNone(powers);
      assert false;
    }
    HonestAgree(w, honest, n, vs);
    var i :| 0 <= i < |AttestationsAt(w.chain, n)| && vs <= Voters(AttestationsAt(w.chain, n)[i].votes);
    EnoughVotersPass(w.chain, powers, n, i, vs);
  }

  lemma HonestAreHeard(w: World, honest: set<Validator>, powers: Powers, n: nat, vs: set<Validator>)
    requires Inv(w, honest) && HonestMajority(powers, honest) && VotesKept(w.chain) && w.chain.active
    requires vs <= honest && SetPower(powers, vs) > RequiredPower(powers)
    requires forall v :: v in vs ==> v in w.chain.validatorNonce && n <= w.chain.validatorNonce[v]
    ensures EndBlock(w.chain, powers).halted <==> FatalRun(w, powers)
    ensures !EndBlock(w.chain, powers).halted ==> EndBlock(w.chain, powers).observedNonce >= n
  {
    hide Inv, VotesKept, Tally, FatalRun, HonestMajority, Passing, Returnable, OneMarked;
    EndBlockKeepsInv(w, honest, powers);
    TallyKeepsInv(w, honest, powers);
    OneVote(w, honest);
    TallyIsExact(w.chain, powers);
    var t := Tally(w.chain, powers);
    if !t.halted && t.observedNonce < n {
      forall v | v in vs
        ensures HasVoted(w.chain, v, t.observedNonce + 1)
      {
        VoteKept(w.chain, v, t.observedNonce + 1);
      }
      HonestPass(w, honest, powers, t.observedNonce + 1, vs);
      assert false;
    }
  }

  lemma OneVote(w: World, honest: set<Validator>)
    requires Inv(w, honest)
    ensures OneVotePerNonce(w.chain) && !w.chain.halted
  {
  }

  /**
  In every run, when honest validators with more than the required power have claimed the events up to `n`, in
  whatever order and with whatever else in between, the next block of an active bridge observes all of them, unless one
  of the events it observes is fatal.
   */
  lemma EveryMajorityIsHeard(ws: seq<World>, steps: seq<Step>, honest: set<Validator>, deployHeight: nat,
        k: nat, n: nat, vs: set<Validator>)
    requires IsRun(ws, steps, honest, deployHeight) && k < |steps| && steps[k].RunEndBlock? && ws[k].chain.active
    requires vs <= honest && SetPower(steps[k].powers, vs) > RequiredPower(steps[k].powers)
    requires forall v :: v in vs ==> v in ws[k].chain.validatorNonce && n <= ws[k].chain.validatorNonce[v]
    ensures !FatalRun(ws[k], steps[k].powers) ==> !ws[k + 1].chain.halted && ws[k + 1].chain.observedNonce >= n
  {
    hide Inv, VotesKept, EndBlock, FatalRun;
    EveryRunKeepsInv(ws, steps, honest, deployHeight, k);
    EveryRunKeepsVotes(ws, steps, honest, deployHeight, k);
    assert Enabled(ws[k], honest, steps[k]) && ws[k + 1] == Next(ws[k], steps[k]);
    HonestAreHeard(ws[k], honest, steps[k].powers, n, vs);
  }

  // ---------------------------------------------------------------------------------------------
  // What a block leaves

  lemma {:induction false} TallyTouches(c: Chain, powers: Powers)
    ensures var t := Tally(c, powers);
      t.validatorNonce == c.validatorNonce && t.active == c.active && t.bridgeable == c.bridgeable
    decreases Ahead(c)
  {
    hide TryNext, HasNext, Tally;
    TallyTurns(c, powers);
    if c.active && !c.halted && HasNext(c, powers) {
      TryTouches(c, powers);
      if !TryNext(c, powers).halted {
        TallyTouches(TryNext(c, powers), powers);
      }
    }
  }

  lemma TryTouches(c: Chain, powers: Powers)
    requires HasNext(c, powers)
    ensures var t := TryNext(c, powers);
      t.validatorNonce == c.validatorNonce && t.active == c.active && t.bridgeable == c.bridgeable
    ensures !TryNext(c, powers).halted ==> Ahead(TryNext(c, powers)) < Ahead(c)
  {
    hide Handle, HasQuorum;
    TryAdvances(c, powers, FirstHit(powers, AttestationsAt(c, c.observedNonce + 1)));
  }

  /**
  After a block that does not halt no stored batch has timed out, exactly the attestations more than 1000 events
  behind are gone, the next event has not passed unless the bridge is paused, and votes and switches are as before.
   */
  lemma BlockLeaves(w: World, honest: set<Validator>, powers: Powers)
    requires Inv(w, honest) && HonestMajority(powers, honest) && !EndBlock(w.chain, powers).halted
    ensures var c, c' := w.chain, EndBlock(w.chain, powers);
      && (forall n :: n in c'.ledger.batches ==> c'.ledger.batches[n].timeout >= c'.observedHeight)
      && (forall n :: n in c'.attestations <==> n in c.attestations && n + 1000 >= c'.observedNonce)
      && c.observedNonce <= c'.observedNonce && !(c.active && Passing(c, powers, c'.observedNonce + 1))
      && (!c.active ==> c'.observedNonce == c.observedNonce)
      && c'.validatorNonce == c.validatorNonce && c'.active == c.active && c'.bridgeable == c.bridgeable
  {
    hide Inv, Tally, HonestMajority, Passing, Returnable, OneMarked, FatalRun;
    var t := Tally(w.chain, powers);
    OneVote(w, honest);
    TallyTouches(w.chain, powers);
    TallyIsExact(w.chain, powers);
    TallyKeepsInv(w, honest, powers);
    var w1 := w.(chain := t);
    CleanupKeepsInv(w1, honest);
    BooksConserved(w1, honest);
    CleanupExactly(t.ledger, t.observedHeight);
    PruneKeepsUnobserved(Cleanup(t));
  }

  lemma BooksConserved(w: World, honest: set<Validator>)
    requires Inv(w, honest)
    ensures Conserved(w.chain.ledger)
  {
  }
}
