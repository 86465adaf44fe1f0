/** Two runs in which the reward of a valset gets in the way: one halts, the other leaves the observed valset behind. */
module ValsetExample {
  import opened BridgePower
  import opened Options
  import opened Valsets
  import opened ValsetRuns

  const MEMBERS: Members := map[1 := FULL_POWER]
  const REWARD: Reward := Reward(7, 100)
  const WINDOW: nat := 10

  function Block(origin: Origin): BlockInput {
    BlockInput(WINDOW, false, Set(MEMBERS, REWARD), [origin])
  }

  function Deployed(): State {
    Genesis(0, MEMBERS)
  }

  /** The first block has observed the deployment and created valset 1. */
  function Created(): State {
    var v := Valset(1, MEMBERS, REWARD);
    State(1, map[1 := v], 1, Some(0), 0, map[1 := v], {}, Deployed().updates, 1, {}, false)
  }

  /** The contract has taken valset 1 and paid the reward. */
  function Submitted(): State {
    Created().(updates := Created().updates + [Update(1, MEMBERS, REWARD)])
  }

  /** The second block observes the update. */
  function Observed(origin: Origin): State {
    ObserveOne(Submitted().(height := 2), origin)
  }

  lemma FirstBlock()
    ensures Next(Deployed(), NextBlock(Block(FromCosmos)), Created())
  {
    var s, b := Deployed().(height := 1), Block(FromCosmos);
    assert Judge(s, WINDOW, s);
    var s1 := ObserveOne(s, FromCosmos);
    assert Observe(s, b.origins) == s1 by {
      assert b.origins[1..] == [];
    }
    assert Create(s1, false, b.current) == Created();
    assert Prune(Created(), WINDOW) == Created();
    assert AfterJudging(s, b) == Created();
  }

  lemma SecondBlock(origin: Origin)
    requires !origin.FromCosmos?
    ensures Next(Submitted(), NextBlock(Block(origin)), Observed(origin))
  {
    var s, b, s1 := Submitted().(height := 2), Block(origin), Observed(origin);
    assert Judge(s, WINDOW, s);
    assert Observe(s, b.origins) == s1 by {
      assert b.origins[1..] == [];
    }
    NoDrift(MEMBERS, MEMBERS.Keys + MEMBERS.Keys);
    assert !s1.halted ==> Create(s1, false, b.current) == s1 && Prune(s1, WINDOW) == s1;
    assert AfterJudging(s, b) == s1;
  }

  /** A reward in a token from Ethereum halts the chain; one that does not classify leaves the observed valset behind the contract's. */
  lemma RewardsGetInTheWay(origin: Origin)
    requires !origin.FromCosmos?
    ensures IsRun([Deployed(), Created(), Submitted(), Observed(origin)], [NextBlock(Block(FromCosmos)), Submit(1), NextBlock(Block(origin))])
    ensures origin.FromEthereum? ==> Observed(origin).halted
    ensures origin.Unclassified? ==>
      var s := Observed(origin); !s.halted && s.applied == |s.updates| && s.observed == Some(0) && LastNonce(s) == 1
  {
    hide EndBlock;
    FirstBlock();
    SecondBlock(origin);
    var states := [Deployed(), Created(), Submitted(), Observed(origin)];
    var steps := [NextBlock(Block(FromCosmos)), Submit(1), NextBlock(Block(origin))];
    assert states[0] == Genesis(0, MEMBERS);
    forall i | 0 <= i < 3
      ensures !states[i].halted && Next(states[i], steps[i], states[i + 1])
    {
      assert i == 0 || i == 1 || i == 2;
    }
  }
}
