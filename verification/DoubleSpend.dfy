/** When a transfer that was paid out on Ethereum can be spent again, exactly and over every run. */
module DoubleSpend {
  import opened Quorum
  import opened Ledger
  import opened Attestations
  import opened Keeper
  import opened TwoChain

  /** The transfers of the batch executed at log position `i`. */
  ghost function PaidAt(w: World, i: nat): set<Transfer>
    requires i < |w.eth.log|
  {
    var e := w.eth.log[i].event;
    if e.BatchExecuted? && e.batchNonce in w.created then w.created[e.batchNonce].txs else {}
  }

  /** No transfer is paid out twice on Ethereum, and none that was paid out is refunded or can be batched again. */
  ghost predicate NoDoubleSpend(w: World) {
    && (forall i :: 0 <= i < |w.eth.log| ==> PaidAt(w, i) !! (w.chain.ledger.pool + w.chain.ledger.refunded))
    && PaidOnce(w)
  }

  ghost predicate PaidOnce(w: World) {
    forall i, j :: 0 <= i < j < |w.eth.log| ==> PaidAt(w, i) !! PaidAt(w, j)
  }

  predicate IsExecution(w: World, i: nat) {
    i < |w.eth.log| && w.eth.log[i].event.BatchExecuted?
  }

  /** The executed batch is still stored. */
  predicate Waiting(w: World, i: nat)
    requires IsExecution(w, i)
  {
    w.eth.log[i].event.batchNonce in w.chain.ledger.batches
  }

  /** Every observed execution has been applied to the ledger or leaves its batch stored. */
  ghost predicate Accounted(w: World) {
    forall i :: 0 <= i < w.chain.observedNonce && IsExecution(w, i) ==> PaidAt(w, i) <= w.chain.ledger.burned || Waiting(w, i)
  }

  /** The observed execution `m` cancels the batch of the earlier execution `i` of its token. */
  predicate Supersedes(w: World, m: nat, i: nat)
    requires IsExecution(w, i)
  {
    && i < m && IsExecution(w, m) && w.eth.log[m].event.token == w.eth.log[i].event.token
    && w.eth.log[m].event.token in w.chain.bridgeable
  }

  ghost predicate SupersededInRun(w: World, powers: Powers, i: nat)
    requires IsExecution(w, i)
  {
    exists m :: 0 <= m < |w.eth.log| && InRun(w.chain, powers, m + 1) && Supersedes(w, m, i)
  }

  // ---------------------------------------------------------------------------------------------
  // What a tally does to one execution

  lemma ExecutionFacts(w: World, honest: set<Validator>, i: nat)
    requires Inv(w, honest) && IsExecution(w, i)
    ensures var n := w.eth.log[i].event.batchNonce;
            && n in w.created && w.created[n].txs == PaidAt(w, i) != {}
            && (i >= w.chain.observedNonce ==> Waiting(w, i))
            && (Waiting(w, i) ==>
                  && w.chain.ledger.batches[n] == w.created[n] && w.created[n].token == w.eth.log[i].event.token
                  && PaidAt(w, i) <= Batched(w.chain.ledger))
  {
    hide OneVotePerNonce, HonestVotes, Conserved;
    assert ExecutedInTime(w.eth, w.created, w.eth.log[i]);
  }

  lemma SamePayments(w: World, w': World)
    requires w' == w.(chain := w'.chain)
    ensures forall i :: 0 <= i < |w.eth.log| ==> PaidAt(w', i) == PaidAt(w, i)
  {
  }

  /** The next event applied: what becomes of the ledger. */
  lemma HandleEffect(w: World, honest: set<Validator>, l: Ledger)
    requires Inv(w, honest) && w.chain.observedNonce < |w.eth.log|
    requires Handle(w.chain.ledger, w.chain.bridgeable, w.eth.log[w.chain.observedNonce]) == Done(l)
    ensures var o, l0 := w.chain.observedNonce, w.chain.ledger;
            var e := w.eth.log[o].event;
            if e.BatchExecuted? && e.token in w.chain.bridgeable then
              && l.burned == l0.burned + PaidAt(w, o)
              && l.batches == l0.batches - (Superseded(l0, e.token, e.batchNonce) + {e.batchNonce})
              && l.pool == l0.pool + TransfersOf(l0.batches, Superseded(l0, e.token, e.batchNonce))
            else l == l0
  {
    hide OneVotePerNonce, HonestVotes, Executed, Conserved, BuiltOrGone;
    var o := w.chain.observedNonce;
    var e := w.eth.log[o].event;
    if e.BatchExecuted? && e.token in w.chain.bridgeable {
      ExecutionFacts(w, honest, o);
      assert ExecutedInTime(w.eth, w.created, w.eth.log[o]);
      ExecutedConserves(w.chain.ledger, e.token, e.batchNonce, w.eth.log[o].height);
    }
  }

  /** One observation and execution `i`: applied, left waiting, returned, or untouched. */
  lemma ObserveOne(w: World, honest: set<Validator>, w': World, i: nat)
    requires Inv(w, honest) && w.chain.observedNonce < |w.eth.log| && IsExecution(w, i)
    requires w' == w.(chain := w'.chain) && w'.chain.observedNonce == w.chain.observedNonce + 1
    requires Handle(w.chain.ledger, w.chain.bridgeable, w.eth.log[w.chain.observedNonce]) == Done(w'.chain.ledger)
    ensures PaidAt(w, i) <= w.chain.ledger.burned ==> PaidAt(w, i) <= w'.chain.ledger.burned
    ensures PaidAt(w, i) <= w.chain.ledger.pool ==> PaidAt(w, i) <= w'.chain.ledger.pool
    ensures i == w.chain.observedNonce ==>
              if w.eth.log[i].event.token in w.chain.bridgeable then PaidAt(w, i) <= w'.chain.ledger.burned else Waiting(w', i)
    ensures i < w.chain.observedNonce && Waiting(w, i) ==>
              if Supersedes(w, w.chain.observedNonce, i) then PaidAt(w, i) <= w'.chain.ledger.pool else Waiting(w', i)
  {
    hide OneVotePerNonce, HonestVotes, Handle, Conserved, PendingStored, BuiltOrGone;
    var o := w.chain.observedNonce;
    HandleEffect(w, honest, w'.chain.ledger);
    ExecutionFacts(w, honest, i);
    if IsExecution(w, o) {
      ExecutionFacts(w, honest, o);
      if i < o {
        assert InOrder(w.eth.log[i].event, w.eth.log[o].event);
        SupersededGoToPool(w.chain.ledger, w.eth.log[o].event.token, w.eth.log[o].event.batchNonce, w.eth.log[i].event.batchNonce);
      }
    }
  }

  lemma SupersededGoToPool(l: Ledger, token: Address, n: nat, m: nat)
    ensures m in Superseded(l, token, n) ==> l.batches[m].txs <= TransfersOf(l.batches, Superseded(l, token, n))
  {
  }

  /** What the tally of a block does to execution `i`, told from the state before it. */
  ghost predicate TallyOutcome(w: World, powers: Powers, w': World, i: nat)
    requires IsExecution(w, i) && IsExecution(w', i)
  {
    && (PaidAt(w, i) <= w.chain.ledger.burned ==> PaidAt(w, i) <= w'.chain.ledger.burned)
    && (PaidAt(w, i) <= w.chain.ledger.pool ==> PaidAt(w, i) <= w'.chain.ledger.pool)
    && (InRun(w.chain, powers, i + 1) ==>
          if w.eth.log[i].event.token in w.chain.bridgeable then PaidAt(w, i) <= w'.chain.ledger.burned else Waiting(w', i))
    && (i < w.chain.observedNonce && Waiting(w, i) ==>
          if SupersededInRun(w, powers, i) then PaidAt(w, i) <= w'.chain.ledger.pool else Waiting(w', i))
  }

  lemma {:induction false} TallyDecides(w: World, honest: set<Validator>, powers: Powers, i: nat)
    requires Inv(w, honest) && HonestMajority(powers, honest) && !FatalRun(w, powers) && IsExecution(w, i)
    ensures TallyOutcome(w, powers, w.(chain := Tally(w.chain, powers)), i)
    decreases Ahead(w.chain)
  {
    hide Inv, TryNext, HasNext, InRun, Fatal, Handle, HonestMajority, PaidAt, FatalRun, Supersedes;
    var c := w.chain;
    NotHalted(w, honest);
    TallyTurns(c, powers);
    if c.active && HasNext(c, powers) {
      NextNotFatal(w, honest, powers);
      TryKeepsInv(w, honest, powers);
      var w1 := w.(chain := TryNext(c, powers));
      NotHalted(w1, honest);
      RunContinues(w, honest, powers);
      ObserveOne(w, honest, w1, i);
      TallyDecides(w1, honest, powers, i);
      assert w1.(chain := Tally(w1.chain, powers)) == w.(chain := Tally(c, powers));
      OutcomesCompose(w, honest, powers, w1, w.(chain := Tally(c, powers)), i);
    } else {
      forall m: nat
        ensures !InRun(c, powers, m)
      {
        RunIsEmpty(c, powers, m);
      }
    }
  }

  lemma NextNotFatal(w: World, honest: set<Validator>, powers: Powers)
    requires Inv(w, honest) && HonestMajority(powers, honest) && w.chain.active && HasNext(w.chain, powers)
    requires !FatalRun(w, powers)
    ensures w.chain.observedNonce < |w.eth.log| && !Fatal(w.eth.log[w.chain.observedNonce].event)
  {
    hide Inv, Fatal, HasNext, HonestMajority;
    NextIsReal(w, honest, powers);
    FirstInRun(w.chain, powers);
    assert InRun(w.chain, powers, w.chain.observedNonce + 1);
  }

  lemma OutcomesCompose(w: World, honest: set<Validator>, powers: Powers, w1: World, w': World, i: nat)
    requires IsExecution(w, i) && w1 == w.(chain := w1.chain) && w' == w.(chain := w'.chain)
    requires w1.chain.observedNonce == w.chain.observedNonce + 1 && w1.chain.bridgeable == w.chain.bridgeable
    requires w.chain.observedNonce < |w.eth.log|
    requires forall m :: InRun(w.chain, powers, m) <==> m == w.chain.observedNonce + 1 || InRun(w1.chain, powers, m)
    requires TallyOutcome(w1, powers, w', i)
    requires PaidAt(w, i) <= w.chain.ledger.burned ==> PaidAt(w, i) <= w1.chain.ledger.burned
    requires PaidAt(w, i) <= w.chain.ledger.pool ==> PaidAt(w, i) <= w1.chain.ledger.pool
    requires i == w.chain.observedNonce ==>
              if w.eth.log[i].event.token in w.chain.bridgeable then PaidAt(w, i) <= w1.chain.ledger.burned else Waiting(w1, i)
    requires i < w.chain.observedNonce && Waiting(w, i) ==>
              if Supersedes(w, w.chain.observedNonce, i) then PaidAt(w, i) <= w1.chain.ledger.pool else Waiting(w1, i)
    ensures TallyOutcome(w, powers, w', i)
  {
    hide InRun;
    var o := w.chain.observedNonce;
    SamePayments(w, w1);
    SamePayments(w, w');
    forall m | 0 <= m < |w.eth.log|
      ensures Supersedes(w1, m, i) == Supersedes(w, m, i)
    {
    }
    assert InRun(w.chain, powers, o + 1);
    assert SupersededInRun(w, powers, i) <==> Supersedes(w, o, i) || SupersededInRun(w1, powers, i);
    if i == o {
      assert w.eth.log[i].event.token !in w.chain.bridgeable ==> !SupersededInRun(w1, powers, i);
    }
  }

  // ---------------------------------------------------------------------------------------------
  // A block

  /** The block ends with an observed Ethereum height above the timeout. */
  ghost predicate Late(w: World, powers: Powers, timeout: nat) {
    || timeout < w.chain.observedHeight
    || exists m :: 0 <= m < |w.eth.log| && InRun(w.chain, powers, m + 1) && timeout < w.eth.log[m].height
  }

  /** Observed without being applied, before this block or in its run. */
  ghost predicate Unapplied(w: World, powers: Powers, i: nat)
    requires IsExecution(w, i)
  {
    || (i < w.chain.observedNonce && Waiting(w, i))
    || (InRun(w.chain, powers, i + 1) && w.eth.log[i].event.token !in w.chain.bridgeable)
  }

  /** The batch of an unapplied execution is cancelled in this block: superseded or timed out. */
  ghost predicate Returns(w: World, powers: Powers, i: nat) {
    && IsExecution(w, i) && Unapplied(w, powers, i) && w.eth.log[i].event.batchNonce in w.created
    && (SupersededInRun(w, powers, i) || Late(w, powers, w.created[w.eth.log[i].event.batchNonce].timeout))
  }

  /** The height and the run a tally ends with, told from the state before it. */
  lemma TallyReaches(w: World, honest: set<Validator>, powers: Powers)
    requires Inv(w, honest) && HonestMajority(powers, honest) && !FatalRun(w, powers)
    ensures var t := Tally(w.chain, powers);
            && !t.halted && w.chain.observedNonce <= t.observedNonce <= |w.eth.log|
            && (forall n: nat :: InRun(w.chain, powers, n) <==> w.chain.observedNonce < n <= t.observedNonce)
            && (forall timeout: nat :: Late(w, powers, timeout) <==> timeout < t.observedHeight)
  {
    hide LedgerOk, OneVotePerNonce, HonestVotes, Tally, HonestMajority, FatalRun, Passing;
    TallyKeepsInv(w, honest, powers);
    TallyIsExact(w.chain, powers);
    var t := Tally(w.chain, powers);
    forall timeout: nat
      ensures Late(w, powers, timeout) <==> timeout < t.observedHeight
    {
      if timeout < t.observedHeight && t.observedNonce > w.chain.observedNonce {
        var m := t.observedNonce - 1;
        assert InRun(w.chain, powers, m + 1) && timeout < w.eth.log[m].height;
      }
    }
  }

  lemma EndBlockLedger(w: World, honest: set<Validator>, powers: Powers)
    requires Inv(w, honest) && HonestMajority(powers, honest) && !FatalRun(w, powers)
    ensures var c, t := EndBlock(w.chain, powers), Tally(w.chain, powers);
            && !c.halted && c.observedNonce == t.observedNonce
            && c.ledger == Cancelled(t.ledger, TimedOut(t.ledger, t.observedHeight))
  {
    hide Inv, Tally, FatalRun;
    TallyKeepsInv(w, honest, powers);
    var w1 := w.(chain := Tally(w.chain, powers));
    NotHalted(w1, honest);
    CleanupKeepsInv(w1, honest);
  }

  /** What a block does to execution `i`. */
  lemma BlockDecides(w: World, honest: set<Validator>, powers: Powers, i: nat)
    requires Inv(w, honest) && HonestMajority(powers, honest) && !FatalRun(w, powers) && IsExecution(w, i)
    ensures var w' := Next(w, RunEndBlock(powers));
            && (PaidAt(w, i) <= w.chain.ledger.burned ==> PaidAt(w, i) <= w'.chain.ledger.burned)
            && (InRun(w.chain, powers, i + 1) && w.eth.log[i].event.token in w.chain.bridgeable ==> PaidAt(w, i) <= w'.chain.ledger.burned)
            && (Unapplied(w, powers, i) ==> if Returns(w, powers, i) then PaidAt(w, i) <= w'.chain.ledger.pool else Waiting(w', i))
  {
    hide Tally, EndBlock, InRun, Handle, HonestMajority, FatalRun, Supersedes, Late, LogOk, HonestVotes, OneVotePerNonce, Conserved, PaidAt;
    var w1, w' := w.(chain := Tally(w.chain, powers)), Next(w, RunEndBlock(powers));
    TallyDecides(w, honest, powers, i);
    TallyReaches(w, honest, powers);
    TallyKeepsInv(w, honest, powers);
    EndBlockLedger(w, honest, powers);
    SamePayments(w, w1);
    ExecutionFacts(w, honest, i);
    ExecutionFacts(w1, honest, i);
    if Unapplied(w, powers, i) {
      NotBoth(w, powers, i);
      CancelledGoToPool(w1.chain.ledger, TimedOut(w1.chain.ledger, w1.chain.observedHeight), w.eth.log[i].event.batchNonce);
    }
  }

  lemma NotBoth(w: World, powers: Powers, i: nat)
    requires IsExecution(w, i)
    ensures InRun(w.chain, powers, i + 1) ==> i >= w.chain.observedNonce
    ensures w.eth.log[i].event.token !in w.chain.bridgeable ==> !SupersededInRun(w, powers, i)
  {
  }

  lemma CancelledGoToPool(l: Ledger, nonces: set<nat>, n: nat)
    ensures n in nonces && n in l.batches ==> l.batches[n].txs <= Cancelled(l, nonces).pool
  {
  }

  lemma AccountedIsSafe(w: World, honest: set<Validator>)
    requires Inv(w, honest) && Accounted(w) && PaidOnce(w)
    ensures NoDoubleSpend(w)
  {
    forall i | 0 <= i < |w.eth.log|
      ensures PaidAt(w, i) !! (w.chain.ledger.pool + w.chain.ledger.refunded)
    {
      if IsExecution(w, i) {
        ExecutionFacts(w, honest, i);
      }
    }
  }

  /**
  A block leaves no double spend if and only if no unapplied execution returns in it. Told from the state
  before the block: an execution observed for a token that does not classify stays unapplied, and returns
  once a later execution of its token is applied or the observed height passes its timeout.
   */
  lemma BlockSafeIff(w: World, honest: set<Validator>, powers: Powers)
    requires Inv(w, honest) && HonestMajority(powers, honest) && !FatalRun(w, powers) && Accounted(w) && PaidOnce(w)
    ensures var w' := Next(w, RunEndBlock(powers));
            && (NoDoubleSpend(w') <==> forall i :: 0 <= i < |w.eth.log| ==> !Returns(w, powers, i))
            && (NoDoubleSpend(w') ==> Accounted(w') && PaidOnce(w'))
  {
    hide Inv, EndBlock, HonestMajority, FatalRun, Returns, Unapplied, PaidAt, InRun;
    var w' := Next(w, RunEndBlock(powers));
    SamePayments(w, w');
    EndBlockKeepsInv(w, honest, powers);
    forall i | 0 <= i < |w.eth.log| && Returns(w, powers, i)
      ensures !NoDoubleSpend(w')
    {
      ReturnsIsUnapplied(w, powers, i);
      ExecutionFacts(w, honest, i);
      BlockDecides(w, honest, powers, i);
    }
    if forall i :: 0 <= i < |w.eth.log| ==> !Returns(w, powers, i) {
      NoReturnAccounted(w, honest, powers);
      AccountedIsSafe(w', honest);
    }
  }

  lemma ReturnsIsUnapplied(w: World, powers: Powers, i: nat)
    requires Returns(w, powers, i)
    ensures IsExecution(w, i) && Unapplied(w, powers, i)
  {
  }

  lemma NoReturnAccounted(w: World, honest: set<Validator>, powers: Powers)
    requires Inv(w, honest) && HonestMajority(powers, honest) && !FatalRun(w, powers) && Accounted(w)
    requires forall i :: 0 <= i < |w.eth.log| ==> !Returns(w, powers, i)
    ensures Accounted(Next(w, RunEndBlock(powers)))
  {
    hide Inv, EndBlock, HonestMajority, FatalRun, Returns, PaidAt, InRun, Tally;
    var w' := Next(w, RunEndBlock(powers));
    SamePayments(w, w');
    EndBlockLedger(w, honest, powers);
    TallyReaches(w, honest, powers);
    forall i | 0 <= i < w'.chain.observedNonce && IsExecution(w', i)
      ensures PaidAt(w', i) <= w'.chain.ledger.burned || Waiting(w', i)
    {
      BlockDecides(w, honest, powers, i);
      assert i >= w.chain.observedNonce ==> InRun(w.chain, powers, i + 1);
    }
  }

  // ---------------------------------------------------------------------------------------------
  // The other steps

  /** A submitted batch pays transfers that no earlier execution has paid. */
  lemma SubmitPaysOnce(w: World, honest: set<Validator>, s: Step)
    requires Inv(w, honest) && Enabled(w, honest, s) && s.SubmitBatch? && Accounted(w) && PaidOnce(w)
    ensures Accounted(Next(w, s)) && PaidOnce(Next(w, s))
  {
    hide OneVotePerNonce, HonestVotes;
    var w' := Next(w, s);
    var last := |w.eth.log|;
    assert forall i :: 0 <= i < last ==> w'.eth.log[i] == w.eth.log[i] && PaidAt(w', i) == PaidAt(w, i);
    assert s.nonce in w.chain.ledger.batches;
    assert PaidAt(w', last) == w.chain.ledger.batches[s.nonce].txs;
    forall i | 0 <= i < last
      ensures PaidAt(w, i) !! w.chain.ledger.batches[s.nonce].txs
    {
      if IsExecution(w, i) {
        assert ExecutedInTime(w.eth, w.created, w.eth.log[i]);
        ExecutionFacts(w, honest, i);
        assert w.chain.ledger.batches[s.nonce].txs <= Batched(w.chain.ledger);
      }
    }
  }

  /** Earlier payments stay as they are. */
  lemma PaymentsKept(w: World, honest: set<Validator>, s: Step)
    requires Inv(w, honest) && Enabled(w, honest, s)
    ensures var w' := Next(w, s);
            && w.chain.observedNonce <= |w.eth.log| <= |w'.eth.log|
            && (forall i :: 0 <= i < |w.eth.log| ==> w'.eth.log[i] == w.eth.log[i] && PaidAt(w', i) == PaidAt(w, i))
            && (!s.SubmitBatch? ==> forall i :: |w.eth.log| <= i < |w'.eth.log| ==> PaidAt(w', i) == {})
  {
    hide OneVotePerNonce, HonestVotes, Conserved, EndBlock;
    var w' := Next(w, s);
    forall i | 0 <= i < |w.eth.log|
      ensures w'.eth.log[i] == w.eth.log[i] && PaidAt(w', i) == PaidAt(w, i)
    {
      if w.eth.log[i].event.BatchExecuted? {
        assert ExecutedInTime(w.eth, w.created, w.eth.log[i]);
      }
    }
  }

  lemma OtherStepsStaySafe(w: World, honest: set<Validator>, s: Step)
    requires Inv(w, honest) && Enabled(w, honest, s) && !s.SubmitBatch? && !s.RunEndBlock? && Accounted(w) && PaidOnce(w)
    ensures Accounted(Next(w, s)) && PaidOnce(Next(w, s))
  {
    hide Inv, Enabled, PaidAt;
    PaymentsKept(w, honest, s);
  }

  // ---------------------------------------------------------------------------------------------
  // Runs

  /** No block of the run up to step `k` returns an execution. */
  ghost predicate NothingReturns(ws: seq<World>, steps: seq<Step>, k: nat)
    requires |ws| == |steps| + 1 && k <= |steps|
  {
    forall j, i :: 0 <= j < k && steps[j].RunEndBlock? && 0 <= i < |ws[j].eth.log| ==> !Returns(ws[j], steps[j].powers, i)
  }

  lemma {:induction false} QuietRunStaysAccounted(ws: seq<World>, steps: seq<Step>, honest: set<Validator>,
        deployHeight: nat, k: nat)
    requires IsRun(ws, steps, honest, deployHeight) && k <= |steps| && !ws[k].chain.halted && NothingReturns(ws, steps, k)
    ensures Inv(ws[k], honest) && Accounted(ws[k]) && PaidOnce(ws[k])
  {
    hide Inv, Next, Returns, FatalRun;
    EveryRunKeepsInv(ws, steps, honest, deployHeight, k);
    if k > 0 {
      EveryRunKeepsInv(ws, steps, honest, deployHeight, k - 1);
      QuietRunStaysAccounted(ws, steps, honest, deployHeight, k - 1);
      StepStaysAccounted(ws[k - 1], honest, steps[k - 1], ws[k]);
    }
  }

  lemma StepStaysAccounted(w: World, honest: set<Validator>, s: Step, w': World)
    requires Inv(w, honest) && Enabled(w, honest, s) && Accounted(w) && PaidOnce(w) && w' == Next(w, s) && !w'.chain.halted
    requires s.RunEndBlock? ==> forall i :: 0 <= i < |w.eth.log| ==> !Returns(w, s.powers, i)
    ensures Accounted(w') && PaidOnce(w')
  {
    hide Inv, Next, Returns, FatalRun;
    StepKeepsInv(w, honest, s);
    if s.RunEndBlock? {
      BlockSafeIff(w, honest, s.powers);
    } else if s.SubmitBatch? {
      SubmitPaysOnce(w, honest, s);
    } else {
      OtherStepsStaySafe(w, honest, s);
    }
  }

  /** In every run: no state up to step `k` shows a double spend if and only if no block up to there returns an execution. */
  lemma {:induction false} NoDoubleSpendIff(ws: seq<World>, steps: seq<Step>, honest: set<Validator>,
        deployHeight: nat, k: nat)
    requires IsRun(ws, steps, honest, deployHeight) && k <= |steps| && !ws[k].chain.halted
    ensures (forall j :: 0 <= j <= k ==> NoDoubleSpend(ws[j])) <==> NothingReturns(ws, steps, k)
  {
    hide Inv, Next, Returns, NoDoubleSpend, FatalRun, Accounted, PaidOnce;
    if k > 0 {
      EveryRunKeepsInv(ws, steps, honest, deployHeight, k - 1);
      NoDoubleSpendIff(ws, steps, honest, deployHeight, k - 1);
      var w, s := ws[k - 1], steps[k - 1];
      if NothingReturns(ws, steps, k - 1) {
        QuietRunStaysAccounted(ws, steps, honest, deployHeight, k - 1);
        StepKeepsInv(w, honest, s);
        if s.RunEndBlock? {
          BlockSafeIff(w, honest, s.powers);
        }
      }
    }
    if NothingReturns(ws, steps, k) {
      QuietRunStaysAccounted(ws, steps, honest, deployHeight, k);
      AccountedIsSafe(ws[k], honest);
    }
  }

  /** Every batch execution the block observes is of a token that classifies. */
  ghost predicate TokensClassify(w: World, powers: Powers) {
    forall i :: 0 <= i < |w.eth.log| && IsExecution(w, i) && InRun(w.chain, powers, i + 1) ==> w.eth.log[i].event.token in w.chain.bridgeable
  }

  /** Every observed execution has been applied to the ledger. */
  ghost predicate Settled(w: World) {
    forall i :: 0 <= i < w.chain.observedNonce && IsExecution(w, i) ==> PaidAt(w, i) <= w.chain.ledger.burned
  }

  /** An applied execution has no batch to return. */
  lemma SettledHasNoneWaiting(w: World, honest: set<Validator>, i: nat)
    requires Inv(w, honest) && Settled(w) && IsExecution(w, i) && i < w.chain.observedNonce
    ensures !Waiting(w, i)
  {
    ExecutionFacts(w, honest, i);
  }

  lemma StepStaysSettled(w: World, honest: set<Validator>, s: Step)
    requires Inv(w, honest) && Enabled(w, honest, s) && Settled(w) && !Next(w, s).chain.halted
    requires s.RunEndBlock? ==> TokensClassify(w, s.powers)
    ensures Settled(Next(w, s))
    ensures s.RunEndBlock? ==> forall i :: 0 <= i < |w.eth.log| ==> !Returns(w, s.powers, i)
  {
    hide Inv, Enabled, EndBlock, PaidAt, FatalRun, InRun, Tally, HonestMajority;
    PaymentsKept(w, honest, s);
    if s.RunEndBlock? {
      BlockStaysSettled(w, honest, s.powers);
    }
  }

  lemma BlockStaysSettled(w: World, honest: set<Validator>, powers: Powers)
    requires Inv(w, honest) && Enabled(w, honest, RunEndBlock(powers)) && Settled(w) && !Next(w, RunEndBlock(powers)).chain.halted
    requires TokensClassify(w, powers)
    ensures Settled(Next(w, RunEndBlock(powers)))
    ensures forall i :: 0 <= i < |w.eth.log| ==> !Returns(w, powers, i)
  {
    hide Inv, EndBlock, PaidAt, FatalRun, InRun, Tally, HonestMajority, SupersededInRun, Late;
    var w' := Next(w, RunEndBlock(powers));
    EndBlockKeepsInv(w, honest, powers);
    EndBlockLedger(w, honest, powers);
    TallyReaches(w, honest, powers);
    SamePayments(w, w');
    forall i | 0 <= i < |w.eth.log| && IsExecution(w, i)
      ensures !Unapplied(w, powers, i)
      ensures i < w'.chain.observedNonce ==> PaidAt(w, i) <= w'.chain.ledger.burned
    {
      if i < w.chain.observedNonce {
        SettledHasNoneWaiting(w, honest, i);
      }
      BlockDecides(w, honest, powers, i);
    }
  }

  /** As long as every batch execution a block observes is of a token that classifies, all of them are applied and nothing is spent twice. */
  lemma {:induction false} ClassifyingRunIsSafe(ws: seq<World>, steps: seq<Step>, honest: set<Validator>,
        deployHeight: nat, k: nat)
    requires IsRun(ws, steps, honest, deployHeight) && k <= |steps| && !ws[k].chain.halted
    requires forall j :: 0 <= j < k && steps[j].RunEndBlock? ==> TokensClassify(ws[j], steps[j].powers)
    ensures Settled(ws[k]) && NoDoubleSpend(ws[k]) && NothingReturns(ws, steps, k)
  {
    hide Inv, Next, Returns, NoDoubleSpend, FatalRun, TokensClassify;
    if k > 0 {
      EveryRunKeepsInv(ws, steps, honest, deployHeight, k - 1);
      ClassifyingRunIsSafe(ws, steps, honest, deployHeight, k - 1);
      assert ws[k - 1 + 1] == Next(ws[k - 1], steps[k - 1]);
      StepStaysSettled(ws[k - 1], honest, steps[k - 1]);
    }
    NoDoubleSpendIff(ws, steps, honest, deployHeight, k);
  }
}
