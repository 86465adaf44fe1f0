/** Two rollbacks: one that goes unnoticed and one that is noticed. */
module OracleExample {
  import opened OracleLoop

  /** Three events claimed, the process starts, and then the nonce goes back to 1. */
  lemma UnnoticedRollback()
    ensures var s := State(Eth(100, [10, 20, 30]), 3, [], {}, Restart, 0, 0, 0);
      var started := Next(s, Start);
      var after := Next(started, Rollback(1));
      && IsRun([s, started, after], [Start, Rollback(1)])
      && started.event <= 1 < Passed(started) && Lost(after)
  {
    var s := State(Eth(100, [10, 20, 30]), 3, [], {}, Restart, 0, 0, 0);
    var started := Next(s, Start);
    CountBelowSplits(s.eth.blocks, 30);
    assert s.eth.blocks[1] < 30;
    var states, steps := [s, started, Next(started, Rollback(1))], [Start, Rollback(1)];
    assert Enabled(states[0], steps[0]) && Enabled(states[1], steps[1]);
  }

  const ETH: Eth := Eth(100, [10, 20])
  const BOTH: Tx := Tx(1, 2)

  /** The loop starts at nonce 0, claims both events in one transaction, and the nonce goes back to 0. */
  function Steps(): seq<Step> {
    [Start, ReadNonce, ReadLogs, Match, Land(BOTH), Recheck, Rollback(0), ReadNonce, DoResync]
  }

  function At(k: nat): State
    requires k < 10
  {
    if k == 0 then State(ETH, 0, [], {}, Restart, 0, 0, 0)
    else if k == 1 then State(ETH, 0, [], {}, Top, 10, 0, 0)
    else if k == 2 then State(ETH, 0, [], {}, Look, 10, 0, 0)
    else if k == 3 then State(ETH, 0, [], {}, Filter(100), 10, 0, 0)
    else if k == 4 then State(ETH, 0, [], {BOTH}, Confirm(0, 0, 2), 10, 0, 0)
    else if k == 5 then State(ETH, 2, [1, 2], {BOTH}, Confirm(0, 0, 2), 10, 0, 0)
    else if k == 6 then State(ETH, 2, [1, 2], {BOTH}, Top, 20, 2, 2)
    else if k == 7 then State(ETH, 0, [], {BOTH}, Top, 20, 2, 2)
    else if k == 8 then State(ETH, 0, [], {BOTH}, Resync, 20, 0, 2)
    else State(ETH, 0, [], {BOTH}, Look, 10, 0, 0)
  }

  lemma Counts()
    ensures Count(ETH.blocks, 100) == 2 && CountBelow(ETH.blocks, 10) == 0 && CountBelow(ETH.blocks, 20) == 1
  {
    var tail := ETH.blocks[1..];
    assert tail == [20] && tail[1..] == [];
    assert Count(tail, 100) == 1 && Count(tail, 19) == 0;
  }

  lemma ClaimSteps(k: nat)
    requires k < 5
    ensures Enabled(At(k), Steps()[k]) && At(k + 1) == Next(At(k), Steps()[k])
  {
    hide Count, CountBelow;
    Counts();
    assert Range(1, 2) == [1, 2] && [] + [1, 2] == [1, 2];
  }

  lemma RollbackSteps(k: nat)
    requires 5 <= k < 9
    ensures Enabled(At(k), Steps()[k]) && At(k + 1) == Next(At(k), Steps()[k])
  {
    hide Count, CountBelow;
  }

  /** After its own claim the loop notices: the next read of the nonce resyncs, back to the block of the first event. */
  lemma NoticedRollback()
    ensures IsRun(seq(10, k requires 0 <= k < 10 => At(k)), Steps())
    ensures Alarmed(At(7)) && At(7).nonce < Passed(At(7)) && BOTH in At(7).sent && At(8).pc.Resync? && Ready(At(9))
  {
    hide Next, Count, CountBelow;
    Counts();
    var states := seq(10, k requires 0 <= k < 10 => At(k));
    forall k | 0 <= k < 9
      ensures Enabled(states[k], Steps()[k]) && states[k + 1] == Next(states[k], Steps()[k])
    {
      if k < 5 {
        ClaimSteps(k);
      } else {
        RollbackSteps(k);
      }
    }
  }

  /** That run records its claim at step 5 and is safe from there on. */
  lemma ClaimIsRecorded(i: nat)
    requires 6 <= i < 10
    ensures Records(At(5), Steps()[5])
    ensures At(i).pc.Resync? || (Synced(At(i)) && (Alarmed(At(i)) || Ready(At(i))))
  {
    hide Next, IsRun, Count, CountBelow;
    NoticedRollback();
    RollbackSteps(5);
    var states := seq(10, k requires 0 <= k < 10 => At(k));
    SafeOnceRecorded(states, Steps(), 0, 5, i);
  }
}
