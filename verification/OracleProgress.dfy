/** The oracle gets somewhere: every iteration moves it on, so every event is found, sent and claimed. */
module OracleProgress {
  import opened Claims
  import opened History
  import opened OracleLoop

  // ---------------------------------------------------------------------------------------------
  // One search

  /**
  A search sends at most one transaction. It starts at the next event and holds exactly the events up to the end of
  the searched range, as far as 1000 go.
   */
  lemma SendsExactly(s: State, k: nat)
    requires Inv(s) && Ready(s) && s.pc.Filter? && s.nonce < k <= |s.eth.blocks|
    ensures forall tx, other :: tx in Sends(s, Match) && other in Sends(s, Match) ==> tx == other
    ensures (exists tx :: tx in Sends(s, Match) && tx.first <= k <= tx.last) <==>
      s.eth.blocks[k - 1] <= s.pc.latest && k <= s.nonce + 1000
  {
    hide Count, CountBelow;
    CountSplits(s.eth.blocks, s.pc.latest);
    var lo, hi := Lo(s.eth.blocks, s.block, s.nonce), Hi(s.eth.blocks, s.pc.latest);
    assert lo == s.nonce && (s.eth.blocks[k - 1] <= s.pc.latest <==> k <= hi);
    if lo < hi {
      assert Tx(lo + 1, Min(hi, lo + 1000)) in Sends(s, Match);
    }
  }

  /** A search that sends nothing has no unclaimed event in its range. */
  lemma NothingFound(s: State, k: nat)
    requires Inv(s) && Ready(s) && s.pc.Filter? && s.nonce < k <= |s.eth.blocks|
    requires Sends(s, Match) == {}
    ensures s.pc.latest < s.eth.blocks[k - 1]
  {
    hide Count, CountBelow;
    CountSplits(s.eth.blocks, s.pc.latest);
  }

  // ---------------------------------------------------------------------------------------------
  // One step

  /** The range being searched reaches event `k` or spans 5000 blocks, and the nonce has not gone back since a send. */
  ghost predicate Reaching(s: State, k: nat)
    requires 0 < k <= |s.eth.blocks|
  {
    && (s.pc.Filter? ==> s.eth.blocks[k - 1] <= s.pc.latest || s.pc.latest == s.block + 5000)
    && (s.pc.Confirm? ==> s.pc.before <= s.nonce)
  }

  /** The nonce the running iteration set out with. */
  function Base(s: State): nat {
    if s.pc.Confirm? then s.pc.before else s.nonce
  }

  ghost predicate Goes(s: State, step: Step, k: nat) {
    && Inv(s) && Behind(s) && Running(s) && 0 < k <= |s.eth.blocks| && Reaching(s, k)
    && Enabled(s, step) && !step.Rollback? && !Next(s, step).pc.Restart?
  }

  lemma GoesReady(s: State, step: Step, k: nat)
    requires Goes(s, step, k)
    ensures Ready(s) && s.event <= s.nonce
  {
    hide GoodEth, NotPassed, GoodPc, CountBelow, Enabled, Next;
    PassedUpToGuard(s);
  }

  /** Nothing takes the cursor or the nonce back. */
  lemma StepGoesOn(s: State, step: Step, k: nat)
    requires Goes(s, step, k)
    ensures var s' := Next(s, step);
      && Running(s') && k <= |s'.eth.blocks| && s'.eth.blocks[k - 1] == s.eth.blocks[k - 1]
      && s.block <= s'.block && s.nonce <= s'.nonce && Base(s) <= Base(s') && Reaching(s', k)
  {
    hide Count, CountBelow, NotPassed;
    GoesReady(s, step, k);
    match step
    case Recheck => RecheckGoesOn(s);
    case _ =>
  }

  lemma RecheckGoesOn(s: State)
    requires Inv(s) && s.pc.Confirm? && Running(s)
    ensures s.pc.lo < s.nonce <= |s.eth.blocks| ==> s.block <= s.eth.blocks[s.nonce - 1]
  {
    hide CountBelow;
    CountBelowSplits(s.eth.blocks, s.block);
  }

  /** An iteration that records something while `k` is unclaimed has moved the cursor by 5000 or claimed something. */
  lemma RecordMoves(s: State, step: Step, k: nat)
    requires Goes(s, step, k) && Records(s, step) && s.nonce < k
    ensures Next(s, step).block >= s.block + 5000 || Base(Next(s, step)) > Base(s)
  {
    hide Count, CountBelow, NotPassed, GoodEth;
    GoesReady(s, step, k);
    if step.Match? {
      NothingFound(s, k);
    }
  }

  /** After a claim was recorded the cursor stands at the block of the last claimed event, no further and not before. */
  lemma CursorAfterClaim(s: State)
    requires Inv(s) && s.pc.Confirm? && Records(s, Recheck)
    ensures 0 < s.nonce <= |s.eth.blocks| && Next(s, Recheck).block == s.eth.blocks[s.nonce - 1]
    ensures Next(s, Recheck).event >= s.nonce
  {
  }

  // ---------------------------------------------------------------------------------------------
  // Runs

  /** From `j` to `i` the process runs, with no rollback since it was started at `a`. */
  ghost predicate RunsOn(states: seq<State>, steps: seq<Step>, a: nat, j: nat, i: nat) {
    && IsRun(states, steps) && a <= j <= i < |states| && states[a].pc.Restart? && states[j].pc.Top?
    && (forall m :: a <= m < i ==> !steps[m].Rollback?)
    && (forall m :: j <= m <= i ==> !states[m].pc.Restart?)
  }

  /** How many iterations record something. */
  ghost function Recorded(states: seq<State>, steps: seq<Step>, j: nat, i: nat): nat
    requires j <= i <= |steps| < |states|
    decreases i
  {
    if i == j then 0 else Recorded(states, steps, j, i - 1) + if Records(states[i - 1], steps[i - 1]) then 1 else 0
  }

  /** How many searches are evaluated. */
  ghost function Searches(steps: seq<Step>, j: nat, i: nat): nat
    requires j <= i <= |steps|
    decreases i
  {
    if i == j then 0 else Searches(steps, j, i - 1) + if steps[i - 1].Match? then 1 else 0
  }

  lemma {:induction false} EveryStepGoes(states: seq<State>, steps: seq<Step>, a: nat, j: nat, i: nat, k: nat)
    requires RunsOn(states, steps, a, j, i) && 0 < k <= |states[j].eth.blocks|
    ensures k <= |states[i].eth.blocks| && states[i].eth.blocks[k - 1] == states[j].eth.blocks[k - 1]
    ensures Inv(states[i]) && Behind(states[i]) && Running(states[i]) && Reaching(states[i], k)
    ensures states[j].block <= states[i].block && states[j].nonce <= states[i].nonce && states[j].nonce <= Base(states[i])
    decreases i
  {
    hide Inv, Next, Enabled;
    EveryRunKeepsInv(states, steps, i);
    BehindUntilRollback(states, steps, a, i);
    if j < i {
      EveryStepGoes(states, steps, a, j, i - 1, k);
      assert states[i - 1 + 1] == Next(states[i - 1], steps[i - 1]);
      StepGoesOn(states[i - 1], steps[i - 1], k);
    }
  }

  /** While `k` is unclaimed, each recording iteration is paid for by 5000 blocks or a claim. */
  lemma {:induction false} RecordsPaidFor(states: seq<State>, steps: seq<Step>, a: nat, j: nat, i: nat, k: nat)
    requires RunsOn(states, steps, a, j, i) && 0 < k <= |states[j].eth.blocks| && states[i].nonce < k
    ensures states[j].nonce <= Base(states[i]) &&
      5000 * Recorded(states, steps, j, i) <= 5000 * (Base(states[i]) - states[j].nonce) + (states[i].block - states[j].block)
    decreases i
  {
    hide Inv, Next, Enabled, Records, Reaching;
    EveryStepGoes(states, steps, a, j, i, k);
    if j < i {
      EveryStepGoes(states, steps, a, j, i - 1, k);
      assert states[i - 1 + 1] == Next(states[i - 1], steps[i - 1]);
      StepGoesOn(states[i - 1], steps[i - 1], k);
      RecordsPaidFor(states, steps, a, j, i - 1, k);
      if Records(states[i - 1], steps[i - 1]) {
        RecordMoves(states[i - 1], steps[i - 1], k);
      }
    }
  }

  lemma CursorBefore(s: State, k: nat)
    requires Inv(s) && Running(s) && Behind(s) && s.nonce < k <= |s.eth.blocks|
    ensures s.block <= s.eth.blocks[k - 1]
  {
  }

  /**
  Progress: in every run, once the process runs without a rollback since its start, event `k` is claimed after at
  most one recording iteration for every 5000 blocks up to it and one for every event before it. Failed reads,
  transactions that land late and a growing history do not matter.
   */
  lemma EveryEventIsClaimed(states: seq<State>, steps: seq<Step>, a: nat, j: nat, i: nat, k: nat)
    requires RunsOn(states, steps, a, j, i) && states[j].nonce < k <= |states[j].eth.blocks|
    ensures states[j].block <= states[j].eth.blocks[k - 1]
    ensures Recorded(states, steps, j, i) > (states[j].eth.blocks[k - 1] - states[j].block) / 5000 + (k - 1 - states[j].nonce)
      ==> states[i].nonce >= k
  {
    hide Inv, Recorded, Reaching, IsRun;
    EveryStepGoes(states, steps, a, j, j, k);
    CursorBefore(states[j], k);
    if states[i].nonce < k {
      EveryStepGoes(states, steps, a, j, i, k);
      CursorBefore(states[i], k);
      RecordsPaidFor(states, steps, a, j, i, k);
      assert Base(states[i]) <= states[i].nonce <= k - 1 by {
        BaseBelow(states[i], k);
      }
    }
  }

  lemma BaseBelow(s: State, k: nat)
    requires 0 < k <= |s.eth.blocks| && Reaching(s, k)
    ensures Base(s) <= s.nonce
  {
  }

  ghost predicate SentFrom(states: seq<State>, steps: seq<Step>, j: nat, i: nat, first: nat)
    requires i <= |steps| < |states|
  {
    exists m, tx :: j <= m < i && tx in Sends(states[m], steps[m]) && tx.first == first
  }

  lemma {:induction false} SearchesPaidFor(states: seq<State>, steps: seq<Step>, a: nat, j: nat, i: nat)
    requires RunsOn(states, steps, a, j, i) && states[i].nonce == states[j].nonce < |states[j].eth.blocks|
    ensures SentFrom(states, steps, j, i, states[j].nonce + 1) ||
      5000 * Searches(steps, j, i) <= states[i].block - states[j].block
    decreases i
  {
    hide Inv, Next, Enabled, Reaching, Sends;
    if j < i {
      var n := states[j].nonce + 1;
      var s, step := states[i - 1], steps[i - 1];
      EveryStepGoes(states, steps, a, j, i - 1, n);
      assert states[i - 1 + 1] == Next(s, step);
      StepGoesOn(s, step, n);
      SearchesPaidFor(states, steps, a, j, i - 1);
      if step.Match? {
        SearchMoves(s, n);
        if Sends(s, Match) != {} {
          var tx :| tx in Sends(s, Match);
          assert SentFrom(states, steps, j, i, n);
        }
      }
    }
  }

  lemma SearchMoves(s: State, k: nat)
    requires Goes(s, Match, k) && k == s.nonce + 1
    ensures Sends(s, Match) == {} ==> Next(s, Match).block >= s.block + 5000
    ensures forall tx :: tx in Sends(s, Match) ==> tx.first == k
  {
    GoesReady(s, Match, k);
    StepKeepsReady(s, Match);
    if Sends(s, Match) == {} {
      NothingFound(s, k);
    }
  }

  /**
  The next event is found: in every run, once the process runs without a rollback since its start, a transaction that
  starts at the next event has been sent after one search for every 5000 blocks up to that event and one more, or the
  nonce has moved meanwhile.
   */
  lemma NextEventIsSent(states: seq<State>, steps: seq<Step>, a: nat, j: nat, i: nat)
    requires RunsOn(states, steps, a, j, i) && states[i].nonce == states[j].nonce < |states[j].eth.blocks|
    requires Searches(steps, j, i) > (states[j].eth.blocks[states[j].nonce] - states[j].block) / 5000
    ensures SentFrom(states, steps, j, i, states[j].nonce + 1)
  {
    hide Inv, Searches, SentFrom, IsRun;
    var n := states[j].nonce + 1;
    SearchesPaidFor(states, steps, a, j, i);
    EveryStepGoes(states, steps, a, j, i, n);
    CursorBefore(states[i], n);
  }
}
