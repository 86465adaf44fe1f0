/** A run after which a transfer that was paid out on Ethereum can be paid out again. */
module TwoChainExample {
  import opened Quorum
  import opened Ledger
  import opened Attestations
  import opened Keeper
  import opened TwoChain
  import opened DoubleSpend

  const TOKEN: Address := 7
  const PAID: Transfer := Transfer(1, TOKEN, 100, 1)
  const BATCH: Batch := Batch(1, TOKEN, 10, {PAID}, 0)
  const DEPLOYED: Claim := Claim(1, 1, Other(0, false))
  const EXECUTED: Claim := Claim(2, 5, BatchExecuted(TOKEN, 1))
  const LATER: Claim := Claim(3, 20, Other(1, false))

  /**
  The deployment is observed. A transfer is sent, batched with timeout 10 and executed at height 5. Its token is then
  taken off the whitelist, the contract emits an event at height 20, the one validator votes for both events, and a
  block ends.
   */
  function Steps(): seq<Step> {
    [ SetBridgeable({TOKEN}),
      Vote(0, DEPLOYED),
      RunEndBlock([1]),
      SendToEth(TOKEN, 100, 1),
      RequestBatch(TOKEN, 10, {PAID}, 0),
      EthereumMines(4),
      SubmitBatch(1),
      SetBridgeable({}),
      EthereumMines(15),
      ContractEvent(1, false),
      Vote(0, EXECUTED),
      Vote(0, LATER),
      RunEndBlock([1]) ]
  }

  const NOTHING: Ledger := Ledger({}, map[], 0, 0, {}, {})
  const POOLED: Ledger := Ledger({PAID}, map[], 1, 0, {}, {})
  const BUILT: Ledger := Ledger({}, map[1 := BATCH], 1, 1, {}, {})

  function OneVote(claim: Claim): seq<Attestation> {
    [Attestation(false, [0], claim)]
  }

  /** The deployment, voted and observed. */
  const SEEN: seq<Attestation> := [Attestation(true, [0], DEPLOYED)]

  function Early(l: Ledger, bridgeable: set<Address>, eth: Ethereum, created: map<nat, Batch>): World {
    World(Chain(l, map[1 := SEEN], map[0 := 1], 1, 1, true, bridgeable, false), eth, created)
  }

  function Voting(attestations: map<nat, seq<Attestation>>, nonce: nat): World {
    World(
      Chain(BUILT, attestations, map[0 := nonce], 1, 1, true, {}, false),
      Ethereum(20, map[TOKEN := 1], [DEPLOYED, EXECUTED, LATER]),
      map[1 := BATCH])
  }

  /** The world before each step. */
  function Before(k: nat): World
    requires k < 13
  {
    var quiet, paid := Ethereum(1, map[], [DEPLOYED]), Ethereum(5, map[TOKEN := 1], [DEPLOYED, EXECUTED]);
    if k == 0 then Genesis(1)
    else if k == 1 then World(Chain(NOTHING, map[], map[], 0, 0, true, {TOKEN}, false), quiet, map[])
    else if k == 2 then World(Chain(NOTHING, map[1 := OneVote(DEPLOYED)], map[0 := 1], 0, 0, true, {TOKEN}, false), quiet, map[])
    else if k == 3 then Early(NOTHING, {TOKEN}, quiet, map[])
    else if k == 4 then Early(POOLED, {TOKEN}, quiet, map[])
    else if k == 5 then Early(BUILT, {TOKEN}, quiet, map[1 := BATCH])
    else if k == 6 then Early(BUILT, {TOKEN}, quiet.(height := 5), map[1 := BATCH])
    else if k == 7 then Early(BUILT, {TOKEN}, paid, map[1 := BATCH])
    else if k == 8 then Early(BUILT, {}, paid, map[1 := BATCH])
    else if k == 9 then Early(BUILT, {}, paid.(height := 20), map[1 := BATCH])
    else if k == 10 then Voting(map[1 := SEEN], 1)
    else if k == 11 then Voting(map[1 := SEEN, 2 := OneVote(EXECUTED)], 2)
    else Voting(map[1 := SEEN, 2 := OneVote(EXECUTED), 3 := OneVote(LATER)], 3)
  }

  function Worlds(): seq<World> {
    seq(13, k requires 0 <= k < 13 => Before(k)) + [Next(Before(12), RunEndBlock([1]))]
  }

  ghost predicate StepOk(k: nat)
    requires k < 12
  {
    Enabled(Before(k), {0}, Steps()[k]) && Before(k + 1) == Next(Before(k), Steps()[k])
  }

  lemma TransferSteps(k: nat)
    requires k == 0 || 3 <= k < 6
    ensures StepOk(k)
  {
    assert {} + {PAID} == {PAID} && {PAID} - {PAID} == {};
  }

  lemma ContractSteps(k: nat)
    requires 6 <= k < 10
    ensures StepOk(k)
  {
  }

  lemma VoteSteps(k: nat)
    requires k == 1 || 10 <= k < 12
    ensures StepOk(k)
  {
    var c := Before(k).chain;
    var claim := Steps()[k].claim;
    assert LastEventNonce(c, 0) + 1 == claim.nonce && AttestationsAt(c, claim.nonce) == [];
    assert WithVote([], claim, 0) == OneVote(claim);
    assert c.attestations[claim.nonce := OneVote(claim)] == Before(k + 1).chain.attestations;
    assert c.validatorNonce[0 := claim.nonce] == Before(k + 1).chain.validatorNonce;
  }

  /** The first block observes the deployment and cancels nothing. */
  lemma FirstBlock()
    ensures StepOk(2)
  {
    hide HasQuorum, HonestMajority;
    OneValidator();
    var c, d := Before(2).chain, Before(3).chain;
    assert FirstHit([1], AttestationsAt(c, 1)) == 0;
    assert TryNext(c, [1]) == d by {
      assert c.attestations[1][0 := c.attestations[1][0].(observed := true)] == SEEN;
    }
    TallyTurns(c, [1]);
    TallyTurns(d, [1]);
    assert Tally(c, [1]) == d;
    assert TimedOut(NOTHING, 1) == {};
    CancelNone(d);
    assert Cleanup(d) == d && PruneAttestations(d) == d;
  }

  lemma OneValidator()
    ensures HonestMajority([1], {0}) && HasQuorum([1], [0])
  {
    assert [0][..0] == [] && [1][..0] == [];
    assert SetPower([1], {0}) == 1 && TotalPower([1]) == 1 && VotePower([1], [0]) == 1;
  }

  lemma ExampleIsRun()
    ensures IsRun(Worlds(), Steps(), {0}, 1)
  {
    hide Before, Next, HonestMajority;
    StartsAtGenesis();
    forall k | 0 <= k < 13
      ensures Enabled(Worlds()[k], {0}, Steps()[k]) && Worlds()[k + 1] == Next(Worlds()[k], Steps()[k])
    {
      if k == 1 || k == 10 || k == 11 {
        VoteSteps(k);
      } else if k == 2 {
        FirstBlock();
      } else if k < 6 {
        TransferSteps(k);
      } else if k < 10 {
        ContractSteps(k);
      } else {
        LastEnabled();
      }
    }
  }

  lemma StartsAtGenesis()
    ensures Before(0) == Genesis(1)
  {
  }

  lemma LastEnabled()
    ensures Enabled(Before(12), {0}, RunEndBlock([1]))
  {
    OneValidator();
  }

  /** The last block observes both events. */
  lemma BothPass()
    ensures InRun(Before(12).chain, [1], 2) && InRun(Before(12).chain, [1], 3)
    ensures !FatalRun(Before(12), [1])
  {
    hide HasQuorum;
    OneValidator();
    var c := Before(12).chain;
    assert c.attestations[2][0].votes == [0] && c.attestations[3][0].votes == [0];
    assert Passing(c, [1], 2) && Passing(c, [1], 3);
  }

  lemma ExampleShape()
    ensures |Worlds()| == 14 && |Steps()| == 13 && Worlds()[2] == Before(2) && Worlds()[12] == Before(12)
    ensures Steps()[2] == Steps()[12] == RunEndBlock([1])
    ensures forall j :: 0 <= j < 12 && j != 2 ==> !Steps()[j].RunEndBlock?
  {
    hide Before, Next;
  }

  lemma FirstBlockReturnsNothing()
    ensures forall i :: 0 <= i < |Before(2).eth.log| ==> !Returns(Before(2), [1], i)
  {
  }

  /** The run is one the chains can take, and it ends with the paid transfer back in the pool. */
  lemma ExampleSpendsTwice()
    ensures IsRun(Worlds(), Steps(), {0}, 1) && |Worlds()| == 14 && !Worlds()[13].chain.halted
    ensures NoDoubleSpend(Worlds()[12]) && !NoDoubleSpend(Worlds()[13])
  {
    hide Before, Next, FatalRun, NoDoubleSpend, InRun, Worlds, Steps, IsRun, Returns, Inv;
    ExampleIsRun();
    ExampleShape();
    BothPass();
    BatchReturns();
    FirstBlockReturnsNothing();
    EveryRunKeepsInv(Worlds(), Steps(), {0}, 1, 12);
    EveryRunKeepsInv(Worlds(), Steps(), {0}, 1, 13);
    NoDoubleSpendIff(Worlds(), Steps(), {0}, 1, 12);
    NoDoubleSpendIff(Worlds(), Steps(), {0}, 1, 13);
    assert NothingReturns(Worlds(), Steps(), 12) && !NothingReturns(Worlds(), Steps(), 13);
  }

  lemma BatchReturns()
    ensures Returns(Before(12), [1], 1) && |Before(12).eth.log| == 3
  {
    hide InRun, SupersededInRun;
    BothPass();
    var w := Before(12);
    assert IsExecution(w, 1) && w.eth.log[1].event.token !in w.chain.bridgeable;
    assert InRun(w.chain, [1], 1 + 1) && InRun(w.chain, [1], 2 + 1) && w.eth.log[2].height == 20;
  }
}
