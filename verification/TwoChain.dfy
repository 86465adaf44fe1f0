/**
The two chains together: the Gravity contract on Ethereum, the Cosmos chain that observes it, and
everybody who may act on either, in any interleaving.

A batch that was ever built stays signed, so the contract may execute it at any later time that its
own checks allow. Validators outside `honest` vote as they like; the honest ones vote for what is
in the contract's log, and the others never hold more than the observation threshold.
 */
module TwoChain {
  import opened Quorum
  import opened ContractLimits
  import opened Ledger
  import opened Attestations
  import opened Keeper

  /** `log[i]` carries event nonce i + 1; the constructor emits nonce 1. */
  datatype Ethereum = Ethereum(height: nat, lastBatchNonce: map<Address, nat>, log: seq<Claim>)

  datatype World = World(chain: Chain, eth: Ethereum, created: map<nat, Batch>)

  datatype Step =
    | EthereumMines(blocks: nat)
    | ContractEvent(payload: nat, panics: bool)
    | SubmitLogicCall
    | SubmitBatch(nonce: nat)
    | SendToEth(token: Address, amount: nat, fee: nat)
    | CancelSendToEth(transfer: Transfer)
    | RequestBatch(batchToken: Address, timeout: nat, txs: set<Transfer>, height: nat)
    | Vote(validator: Validator, claim: Claim)
    | RunEndBlock(powers: Powers)
    | ResetOracle(cutoff: nat)
    | SetBridgeActive(active: bool)
    | SetBridgeable(tokens: set<Address>)

  function LastBatchNonce(eth: Ethereum, token: Address): nat {
    if token in eth.lastBatchNonce then eth.lastBatchNonce[token] else 0
  }

  /** The contract's own checks on a signed batch. */
  predicate Executable(eth: Ethereum, b: Batch) {
    && LastBatchNonce(eth, b.token) < b.nonce
    && eth.height < b.timeout
  }

  function Emit(eth: Ethereum, event: Event): Ethereum {
    eth.(log := eth.log + [Claim(|eth.log| + 1, eth.height, event)])
  }

  /** The event with this claim's nonce is in the log and the claim tells it truly. */
  predicate IsReal(log: seq<Claim>, claim: Claim) {
    1 <= claim.nonce <= |log| && log[claim.nonce - 1] == claim
  }

  /** A batch times out above the last observed Ethereum height; before any height is observed its timeout is 0. */
  predicate GoodTimeout(observedHeight: nat, timeout: nat) {
    if observedHeight == 0 then timeout == 0 else timeout == 0 || timeout >= observedHeight
  }

  ghost predicate Enabled(w: World, honest: set<Validator>, s: Step) {
    && !w.chain.halted
    && match s
       case SubmitBatch(n) =>
         n in w.created && Executable(w.eth, w.created[n]) && n <= LastBatchNonce(w.eth, w.created[n].token) + MAX_NONCE_STEP
       case RequestBatch(token, timeout, txs, _) =>
         && w.chain.active && txs != {} && txs <= w.chain.ledger.pool && (forall t :: t in txs ==> t.token == token)
         && GoodTimeout(w.chain.observedHeight, timeout)
       case Vote(v, claim) => v in honest ==> IsReal(w.eth.log, claim)
       case RunEndBlock(powers) => HonestMajority(powers, honest)
       case _ => true
  }

  function OnLedger(w: World, l: Ledger): World {
    w.(chain := w.chain.(ledger := l))
  }

  function Next(w: World, s: Step): World {
    match s
    case EthereumMines(blocks) => w.(eth := w.eth.(height := w.eth.height + blocks))
    case ContractEvent(payload, panics) => w.(eth := Emit(w.eth, Other(payload, panics)))
    case SubmitLogicCall => w.(eth := Emit(w.eth, LogicCallExecuted))
    case SubmitBatch(n) =>
      if n !in w.created then w
      else
        var token := w.created[n].token;
        w.(eth := Emit(w.eth, BatchExecuted(token, n)).(lastBatchNonce := w.eth.lastBatchNonce[token := n]))
    case SendToEth(token, amount, fee) => OnLedger(w, Send(w.chain.ledger, token, amount, fee))
    case CancelSendToEth(t) => OnLedger(w, Refund(w.chain.ledger, t))
    case RequestBatch(token, timeout, txs, height) =>
      var l := Build(w.chain.ledger, token, timeout, txs, height);
      OnLedger(w, l).(created := w.created[l.lastBatchId := l.batches[l.lastBatchId]])
    case Vote(v, claim) => w.(chain := Attest(w.chain, v, claim))
    case RunEndBlock(powers) => w.(chain := EndBlock(w.chain, powers))
    case ResetOracle(cutoff) => w.(chain := Reset(w.chain, cutoff))
    case SetBridgeActive(active) => w.(chain := w.chain.(active := active))
    case SetBridgeable(tokens) => w.(chain := w.chain.(bridgeable := tokens))
  }

  /** What the outside may do: each event of the contract is logged under the next nonce, and governance has its way. */
  lemma WorldMoves(w: World, payload: nat, panics: bool, cutoff: nat, active: bool, tokens: set<Address>)
    ensures var n, h := |w.eth.log| + 1, w.eth.height;
      && Next(w, SubmitLogicCall) == w.(eth := w.eth.(log := w.eth.log + [Claim(n, h, LogicCallExecuted)]))
      && Next(w, ContractEvent(payload, panics)) == w.(eth := w.eth.(log := w.eth.log + [Claim(n, h, Other(payload, panics))]))
    ensures Next(w, ResetOracle(cutoff)) == w.(chain := Reset(w.chain, cutoff))
    ensures Next(w, SetBridgeActive(active)) == w.(chain := w.chain.(active := active))
    ensures Next(w, SetBridgeable(tokens)) == w.(chain := w.chain.(bridgeable := tokens))
  {
  }

  function Genesis(deployHeight: nat): World {
    World(
      Chain(Ledger({}, map[], 0, 0, {}, {}), map[], map[], 0, 0, true, {}, false),
      Ethereum(deployHeight, map[], [Claim(1, deployHeight, Other(0, false))]),
      map[])
  }

  // ---------------------------------------------------------------------------------------------
  // What every step keeps

  /** Event heights never decrease, executed batches met the contract's checks, in nonce order per token. */
  ghost predicate LogOk(eth: Ethereum, created: map<nat, Batch>) {
    && (forall i :: 0 <= i < |eth.log| ==> eth.log[i].nonce == i + 1 && eth.log[i].height <= eth.height)
    && (forall i, j :: 0 <= i < j < |eth.log| ==> eth.log[i].height <= eth.log[j].height)
    && (forall i :: 0 <= i < |eth.log| && eth.log[i].event.BatchExecuted? ==> ExecutedInTime(eth, created, eth.log[i]))
    && (forall i, j :: 0 <= i < j < |eth.log| ==> InOrder(eth.log[i].event, eth.log[j].event))
  }

  ghost predicate ExecutedInTime(eth: Ethereum, created: map<nat, Batch>, claim: Claim)
    requires claim.event.BatchExecuted?
  {
    var n := claim.event.batchNonce;
    && n in created
    && created[n].token == claim.event.token
    && claim.height < created[n].timeout
    && n <= LastBatchNonce(eth, claim.event.token)
  }

  ghost predicate InOrder(e: Event, f: Event) {
    e.BatchExecuted? && f.BatchExecuted? && e.token == f.token ==> e.batchNonce < f.batchNonce
  }

  /** The stored batches are built ones; a batch that is no longer stored can never be executed again. */
  ghost predicate BuiltOrGone(l: Ledger, eth: Ethereum, created: map<nat, Batch>) {
    && (forall n :: n in l.batches ==> n in created && created[n] == l.batches[n])
    && (forall n :: n in created ==> created[n].nonce == n && n <= l.lastBatchId && created[n].txs != {})
    && (forall n :: n in created && n !in l.batches ==> !Executable(eth, created[n]))
  }

  /** A batch whose execution has not been observed yet is still stored. */
  ghost predicate PendingStored(l: Ledger, eth: Ethereum, observed: nat) {
    forall i :: observed <= i < |eth.log| && eth.log[i].event.BatchExecuted? ==> eth.log[i].event.batchNonce in l.batches
  }

  ghost predicate LedgerOk(l: Ledger, eth: Ethereum, created: map<nat, Batch>, observed: nat) {
    Conserved(l) && BuiltOrGone(l, eth, created) && PendingStored(l, eth, observed)
  }

  /** What the chain has observed is a prefix of the log. */
  ghost predicate Follows(c: Chain, eth: Ethereum) {
    && c.observedNonce <= |eth.log|
    && c.observedHeight == if c.observedNonce == 0 then 0 else eth.log[c.observedNonce - 1].height
  }

  ghost predicate HonestVote(log: seq<Claim>, honest: set<Validator>, att: Attestation) {
    (exists v :: v in att.votes && v in honest) ==> IsReal(log, att.claim)
  }

  ghost predicate HonestVotes(c: Chain, log: seq<Claim>, honest: set<Validator>) {
    forall n, i :: n in c.attestations && 0 <= i < |c.attestations[n]| ==> HonestVote(log, honest, c.attestations[n][i])
  }

  ghost predicate Inv(w: World, honest: set<Validator>) {
    && !w.chain.halted
    && LogOk(w.eth, w.created)
    && LedgerOk(w.chain.ledger, w.eth, w.created, w.chain.observedNonce)
    && Follows(w.chain, w.eth)
    && OneVotePerNonce(w.chain)
    && HonestVotes(w.chain, w.eth.log, honest)
  }

  // ---------------------------------------------------------------------------------------------
  // Observing and cleaning up

  /** A handled execution removes the batch and the earlier ones of its token, all of them dead on Ethereum. */
  lemma ExecutedKeepsLedgerOk(l: Ledger, eth: Ethereum, created: map<nat, Batch>, observed: nat)
    requires LogOk(eth, created) && LedgerOk(l, eth, created, observed) && observed < |eth.log|
    requires eth.log[observed].event.BatchExecuted?
    ensures var claim := eth.log[observed];
            var o := Executed(l, claim.event.token, claim.event.batchNonce, claim.height);
            o.Done? && LedgerOk(o.ledger, eth, created, observed + 1)
  {
    hide Conserved, Executed, InOrder, Everything;
    var claim := eth.log[observed];
    var token, n := claim.event.token, claim.event.batchNonce;
    assert ExecutedInTime(eth, created, claim) && l.batches[n] == created[n];
    ExecutedConserves(l, token, n, claim.height);
    var l' := Executed(l, token, n, claim.height).ledger;
    ExecutedAreGone(l, l', eth, created, token, n);
    PendingSurvive(l, l', eth, created, observed);
  }

  /** The removed batches are all superseded on Ethereum. */
  lemma ExecutedAreGone(l: Ledger, l': Ledger, eth: Ethereum, created: map<nat, Batch>, token: Address, n: nat)
    requires BuiltOrGone(l, eth, created) && n <= LastBatchNonce(eth, token) && n in created && created[n].token == token
    requires l'.batches == l.batches - (Superseded(l, token, n) + {n}) && l'.lastBatchId == l.lastBatchId
    ensures BuiltOrGone(l', eth, created)
  {
    forall m | m in created && m !in l'.batches
      ensures !Executable(eth, created[m])
    {
      if m in l.batches {
        assert m in Superseded(l, token, n) + {n};
      }
    }
  }

  /** Batches whose execution is still to be observed are newer than the one observed. */
  lemma PendingSurvive(l: Ledger, l': Ledger, eth: Ethereum, created: map<nat, Batch>, observed: nat)
    requires LogOk(eth, created) && PendingStored(l, eth, observed) && BuiltOrGone(l, eth, created)
    requires observed < |eth.log| && eth.log[observed].event.BatchExecuted?
    requires var e := eth.log[observed].event; l'.batches == l.batches - (Superseded(l, e.token, e.batchNonce) + {e.batchNonce})
    ensures PendingStored(l', eth, observed + 1)
  {
    var e := eth.log[observed].event;
    assert ExecutedInTime(eth, created, eth.log[observed]);
    forall i | observed + 1 <= i < |eth.log| && eth.log[i].event.BatchExecuted?
      ensures eth.log[i].event.batchNonce in l'.batches
    {
      assert InOrder(e, eth.log[i].event) && ExecutedInTime(eth, created, eth.log[i]);
      assert eth.log[i].event.batchNonce !in Superseded(l, e.token, e.batchNonce) + {e.batchNonce};
    }
  }

  lemma HandleKeepsLedgerOk(l: Ledger, eth: Ethereum, created: map<nat, Batch>, observed: nat, bridgeable: set<Address>)
    requires LogOk(eth, created) && LedgerOk(l, eth, created, observed) && observed < |eth.log|
    requires !Fatal(eth.log[observed].event)
    ensures var o := Handle(l, bridgeable, eth.log[observed]);
            o.Done? && LedgerOk(o.ledger, eth, created, observed + 1)
  {
    hide Executed;
    var claim := eth.log[observed];
    if claim.event.BatchExecuted? && claim.event.token in bridgeable {
      ExecutedKeepsLedgerOk(l, eth, created, observed);
    } else {
      assert PendingStored(l, eth, observed + 1);
    }
  }

  /** A batch is timed out only when every event still to come is later than its timeout. */
  lemma CleanupKeepsLedgerOk(l: Ledger, eth: Ethereum, created: map<nat, Batch>, observed: nat, height: nat)
    requires LogOk(eth, created) && LedgerOk(l, eth, created, observed) && observed <= |eth.log|
    requires height == if observed == 0 then 0 else eth.log[observed - 1].height
    ensures Returnable(l, TimedOut(l, height))
    ensures LedgerOk(Cancelled(l, TimedOut(l, height)), eth, created, observed)
  {
    var due := TimedOut(l, height);
    CancelNeverPanics(l, due);
    CancelConserves(l, due);
    var l' := Cancelled(l, due);
    forall i | observed <= i < |eth.log| && eth.log[i].event.BatchExecuted?
      ensures eth.log[i].event.batchNonce in l'.batches
    {
      assert ExecutedInTime(eth, created, eth.log[i]);
    }
  }

  /** What passes the vote is what happened on Ethereum. */
  lemma PassingIsReal(w: World, honest: set<Validator>, powers: Powers, n: nat, i: nat)
    requires Inv(w, honest) && HonestMajority(powers, honest)
    requires n in w.chain.attestations && i < |w.chain.attestations[n]|
    requires HasQuorum(powers, w.chain.attestations[n][i].votes)
    ensures IsReal(w.eth.log, w.chain.attestations[n][i].claim) && w.chain.attestations[n][i].claim.nonce == n
  {
    var att := w.chain.attestations[n][i];
    assert Voted(w.chain, n, att) && HonestVote(w.eth.log, honest, att);
    QuorumHasHonestVote(powers, honest, att.votes);
  }

  lemma MarkingKeepsHonestVotes(c: Chain, log: seq<Claim>, honest: set<Validator>, n: nat, i: nat)
    requires HonestVotes(c, log, honest) && n in c.attestations && i < |c.attestations[n]|
    ensures var atts := c.attestations[n];
            HonestVotes(c.(attestations := c.attestations[n := atts[i := atts[i].(observed := true)]]), log, honest)
  {
    var atts := c.attestations[n];
    var c' := c.(attestations := c.attestations[n := atts[i := atts[i].(observed := true)]]);
    forall m, k | m in c'.attestations && 0 <= k < |c'.attestations[m]|
      ensures HonestVote(log, honest, c'.attestations[m][k])
    {
      assert HonestVote(log, honest, c.attestations[m][k]);
    }
  }

  lemma TryObserves(c: Chain, powers: Powers, i: nat, l: Ledger)
    requires c.observedNonce + 1 in c.attestations && i < |c.attestations[c.observedNonce + 1]|
    requires var att := c.attestations[c.observedNonce + 1][i];
             && !att.observed && HasQuorum(powers, att.votes)
             && att.claim.nonce == c.observedNonce + 1 && c.observedHeight <= att.claim.height
             && Handle(c.ledger, c.bridgeable, att.claim) == Done(l)
    ensures var n := c.observedNonce + 1;
            var atts := c.attestations[n];
            Try(c, powers, n, i) ==
            c.(ledger := l, observedNonce := n, observedHeight := atts[i].claim.height,
            attestations := c.attestations[n := atts[i := atts[i].(observed := true)]])
  {
    hide Handle, HasQuorum;
  }

  /** The next attestation to be tried, if any, tells the next event of the log. */
  lemma NextIsReal(w: World, honest: set<Validator>, powers: Powers)
    requires Inv(w, honest) && HonestMajority(powers, honest)
    requires HasNext(w.chain, powers)
    ensures var c := w.chain;
            var att := NextAttestation(c, powers);
            && c.observedNonce < |w.eth.log| && att.claim == w.eth.log[c.observedNonce]
            && !att.observed && HasQuorum(powers, att.votes) && c.observedHeight <= att.claim.height
  {
    hide LedgerOk, OneVotePerNonce, HonestVotes, HasQuorum, HonestMajority;
    var c := w.chain;
    var n := c.observedNonce + 1;
    var i := FirstHit(powers, AttestationsAt(c, n));
    NextIsUnobserved(c, n, i);
    PassingIsReal(w, honest, powers, n, i);
  }

  /** A fatal event stops the tally there. */
  lemma FatalHalts(w: World, honest: set<Validator>, powers: Powers)
    requires Inv(w, honest) && HonestMajority(powers, honest)
    requires HasNext(w.chain, powers)
    requires w.chain.observedNonce < |w.eth.log| && Fatal(w.eth.log[w.chain.observedNonce].event)
    ensures TryNext(w.chain, powers).halted
  {
    hide Inv, HasQuorum, HonestMajority;
    NextIsReal(w, honest, powers);
  }

  /** One observation: the next event of the log, handled without a panic unless it is fatal. */
  lemma TryKeepsInv(w: World, honest: set<Validator>, powers: Powers)
    requires Inv(w, honest) && HonestMajority(powers, honest)
    requires HasNext(w.chain, powers)
    requires w.chain.observedNonce < |w.eth.log| && !Fatal(w.eth.log[w.chain.observedNonce].event)
    ensures var c := w.chain;
            var c' := TryNext(c, powers);
            && Inv(w.(chain := c'), honest)
            && c'.observedNonce == c.observedNonce + 1
            && c'.bridgeable == c.bridgeable && c'.active == c.active
            && Handle(c.ledger, c.bridgeable, w.eth.log[c.observedNonce]) == Done(c'.ledger)
            && Ahead(c') < Ahead(c)
  {
    hide Handle, LedgerOk, OneVotePerNonce, HonestVotes, HasQuorum, Try, Observe, HonestMajority;
    var c := w.chain;
    var n := c.observedNonce + 1;
    var i := FirstHit(powers, AttestationsAt(c, n));
    NextIsReal(w, honest, powers);
    HandleKeepsLedgerOk(c.ledger, w.eth, w.created, c.observedNonce, c.bridgeable);
    var l := Handle(c.ledger, c.bridgeable, w.eth.log[c.observedNonce]).ledger;
    TryObserves(c, powers, i, l);
    TryMarks(c, powers);
    MarkingKeepsHonestVotes(c, w.eth.log, honest, n, i);
    HonestVotesOfAttestations(c, Try(c, powers, n, i), w.eth.log, honest, n, i);
  }

  lemma NextIsUnobserved(c: Chain, n: nat, i: nat)
    requires OneVotePerNonce(c) && n > c.observedNonce && n in c.attestations && i < |c.attestations[n]|
    ensures !c.attestations[n][i].observed && c.attestations[n][i].claim.nonce == n
  {
    assert Voted(c, n, c.attestations[n][i]);
  }

  lemma HonestVotesOfAttestations(c: Chain, d: Chain, log: seq<Claim>, honest: set<Validator>, n: nat, i: nat)
    requires n in c.attestations && i < |c.attestations[n]|
    requires var atts := c.attestations[n];
             HonestVotes(c.(attestations := c.attestations[n := atts[i := atts[i].(observed := true)]]), log, honest)
    requires var atts := c.attestations[n];
             d.attestations == c.attestations[n := atts[i := atts[i].(observed := true)]]
    ensures HonestVotes(d, log, honest)
  {
  }

  /** The run of passing nonces reaches a fatal event. */
  ghost predicate FatalRun(w: World, powers: Powers) {
    exists n :: 1 <= n <= |w.eth.log| && InRun(w.chain, powers, n) && Fatal(w.eth.log[n - 1].event)
  }

  /** A tally halts exactly when its run reaches a fatal event, and otherwise keeps the invariant. */
  lemma {:induction false} TallyKeepsInv(w: World, honest: set<Validator>, powers: Powers)
    requires Inv(w, honest) && HonestMajority(powers, honest)
    ensures Tally(w.chain, powers).halted <==> FatalRun(w, powers)
    ensures !Tally(w.chain, powers).halted ==>
              && Inv(w.(chain := Tally(w.chain, powers)), honest)
              && w.chain.observedNonce <= Tally(w.chain, powers).observedNonce
              && Tally(w.chain, powers).bridgeable == w.chain.bridgeable
    decreases Ahead(w.chain)
  {
    hide Inv, TryNext, HasNext, InRun, Fatal;
    var c := w.chain;
    NotHalted(w, honest);
    TallyTurns(c, powers);
    if c.active && HasNext(c, powers) {
      NextIsReal(w, honest, powers);
      FirstInRun(c, powers);
      if Fatal(w.eth.log[c.observedNonce].event) {
        FatalHalts(w, honest, powers);
        assert FatalRun(w, powers);
      } else {
        TryKeepsInv(w, honest, powers);
        var w' := w.(chain := TryNext(c, powers));
        NotHalted(w', honest);
        RunContinues(w, honest, powers);
        TallyKeepsInv(w', honest, powers);
        assert w'.(chain := Tally(w'.chain, powers)) == w.(chain := Tally(c, powers));
      }
    } else {
      assert w.(chain := c) == w;
      forall m
        ensures !InRun(c, powers, m)
      {
        RunIsEmpty(c, powers, m);
      }
    }
  }

  lemma TallyTurns(c: Chain, powers: Powers)
    ensures c.active && !c.halted && HasNext(c, powers) ==>
              Tally(c, powers) == if TryNext(c, powers).halted then TryNext(c, powers) else Tally(TryNext(c, powers), powers)
    ensures !(c.active && !c.halted && HasNext(c, powers)) ==> Tally(c, powers) == c
  {
  }

  lemma FirstInRun(c: Chain, powers: Powers)
    requires c.active && HasNext(c, powers) && HasQuorum(powers, NextAttestation(c, powers).votes)
    ensures InRun(c, powers, c.observedNonce + 1)
  {
    assert Passing(c, powers, c.observedNonce + 1);
  }

  lemma RunContinues(w: World, honest: set<Validator>, powers: Powers)
    requires Inv(w, honest) && HonestMajority(powers, honest) && w.chain.active
    requires HasNext(w.chain, powers)
    requires w.chain.observedNonce < |w.eth.log| && !Fatal(w.eth.log[w.chain.observedNonce].event)
    ensures var c := w.chain;
            var w' := w.(chain := TryNext(c, powers));
            && (FatalRun(w, powers) <==> FatalRun(w', powers))
            && forall m :: InRun(c, powers, m) <==> m == c.observedNonce + 1 || InRun(w'.chain, powers, m)
  {
    hide LogOk, LedgerOk, HonestVotes, OneVotePerNonce, TryNext, HasNext, InRun, HonestMajority, Fatal;
    TryKeepsInv(w, honest, powers);
    var c := w.chain;
    var w' := w.(chain := TryNext(c, powers));
    forall m: nat
      ensures InRun(c, powers, m) <==> m == c.observedNonce + 1 || InRun(w'.chain, powers, m)
    {
      RunShortens(c, powers, m);
    }
  }

  lemma NotHalted(w: World, honest: set<Validator>)
    requires Inv(w, honest)
    ensures !w.chain.halted
  {
  }

  lemma CleanupKeepsInv(w: World, honest: set<Validator>)
    requires Inv(w, honest)
    ensures Inv(w.(chain := Cleanup(w.chain)), honest)
    ensures !Cleanup(w.chain).halted
    ensures Cleanup(w.chain).ledger == Cancelled(w.chain.ledger, TimedOut(w.chain.ledger, w.chain.observedHeight))
  {
    hide LedgerOk, OneVotePerNonce, HonestVotes, Returnable, LogOk;
    var c := w.chain;
    CleanupKeepsLedgerOk(c.ledger, w.eth, w.created, c.observedNonce, c.observedHeight);
    VotesKeptBy(c, Cleanup(c), w.eth.log, honest);
  }

  /** Invariants of the votes depend on the votes only. */
  lemma VotesKeptBy(c: Chain, d: Chain, log: seq<Claim>, honest: set<Validator>)
    requires OneVotePerNonce(c) && HonestVotes(c, log, honest)
    requires d.attestations == c.attestations && d.validatorNonce == c.validatorNonce && d.observedNonce == c.observedNonce
    ensures OneVotePerNonce(d) && HonestVotes(d, log, honest)
  {
    forall n, i | n in d.attestations && 0 <= i < |d.attestations[n]|
      ensures Voted(d, n, d.attestations[n][i])
    {
      assert Voted(c, n, c.attestations[n][i]);
    }
  }

  lemma PruneKeepsInv(w: World, honest: set<Validator>)
    requires Inv(w, honest)
    ensures Inv(w.(chain := PruneAttestations(w.chain)), honest)
  {
    hide LedgerOk, LogOk;
    PruneKeepsOneVotePerNonce(w.chain);
  }

  /** A block halts the chain exactly when the run it observes holds a fatal event. */
  lemma EndBlockKeepsInv(w: World, honest: set<Validator>, powers: Powers)
    requires Inv(w, honest) && HonestMajority(powers, honest)
    ensures EndBlock(w.chain, powers).halted <==> FatalRun(w, powers)
    ensures !EndBlock(w.chain, powers).halted ==> Inv(w.(chain := EndBlock(w.chain, powers)), honest)
  {
    hide Inv, Tally, Cleanup, PruneAttestations, FatalRun;
    TallyKeepsInv(w, honest, powers);
    var w1 := w.(chain := Tally(w.chain, powers));
    if !w1.chain.halted {
      CleanupKeepsInv(w1, honest);
      var w2 := w1.(chain := Cleanup(w1.chain));
      PruneKeepsInv(w2, honest);
      var w3 := w2.(chain := PruneAttestations(w2.chain));
      NotHalted(w3, honest);
      assert w3 == w.(chain := EndBlock(w.chain, powers));
    }
  }

  // ---------------------------------------------------------------------------------------------
  // The other steps

  /** More Ethereum blocks and more events only take batches out of reach. */
  lemma EmitKeepsInv(w: World, honest: set<Validator>, s: Step)
    requires Inv(w, honest) && Enabled(w, honest, s)
    requires s.EthereumMines? || s.ContractEvent? || s.SubmitLogicCall? || s.SubmitBatch?
    ensures Inv(Next(w, s), honest)
  {
    hide OneVotePerNonce, Conserved;
    var w' := Next(w, s);
    assert forall i :: 0 <= i < |w.eth.log| ==> w'.eth.log[i] == w.eth.log[i];
    if s.SubmitBatch? {
      // Only a stored batch can still be executable.
      assert s.nonce in w.chain.ledger.batches;
    }
    EmitKeepsLogOk(w, honest, s);
    forall n, i | n in w.chain.attestations && 0 <= i < |w.chain.attestations[n]|
      ensures HonestVote(w'.eth.log, honest, w.chain.attestations[n][i])
    {
      assert HonestVote(w.eth.log, honest, w.chain.attestations[n][i]);
    }
  }

  lemma EmitKeepsLogOk(w: World, honest: set<Validator>, s: Step)
    requires Inv(w, honest) && Enabled(w, honest, s)
    requires s.EthereumMines? || s.ContractEvent? || s.SubmitLogicCall? || s.SubmitBatch?
    ensures LogOk(Next(w, s).eth, w.created)
  {
    hide OneVotePerNonce, Conserved, HonestVotes;
    var w' := Next(w, s);
    forall i | 0 <= i < |w'.eth.log| && w'.eth.log[i].event.BatchExecuted?
      ensures ExecutedInTime(w'.eth, w.created, w'.eth.log[i])
    {
      if i < |w.eth.log| {
        assert ExecutedInTime(w.eth, w.created, w.eth.log[i]);
      }
    }
    forall i, j | 0 <= i < j < |w'.eth.log|
      ensures InOrder(w'.eth.log[i].event, w'.eth.log[j].event)
    {
      if j < |w.eth.log| {
        assert InOrder(w.eth.log[i].event, w.eth.log[j].event);
      } else if w.eth.log[i].event.BatchExecuted? {
        assert ExecutedInTime(w.eth, w.created, w.eth.log[i]);
      }
    }
  }

  lemma TransferStepKeepsInv(w: World, honest: set<Validator>, s: Step)
    requires Inv(w, honest) && (s.SendToEth? || s.CancelSendToEth?)
    ensures Inv(Next(w, s), honest)
  {
    hide OneVotePerNonce, HonestVotes, Conserved, LogOk;
    var l := w.chain.ledger;
    if s.SendToEth? {
      SendConserves(l, s.token, s.amount, s.fee);
    } else {
      RefundConserves(l, s.transfer);
    }
    VotesKeptBy(w.chain, Next(w, s).chain, w.eth.log, honest);
  }

  lemma RequestBatchKeepsInv(w: World, honest: set<Validator>, s: Step)
    requires Inv(w, honest) && Enabled(w, honest, s) && s.RequestBatch?
    ensures Inv(Next(w, s), honest)
  {
    hide OneVotePerNonce, HonestVotes, Conserved, LogOk, LedgerOk;
    var l := w.chain.ledger;
    var w' := Next(w, s);
    BuildKeepsLedgerOk(l, w.eth, w.created, w.chain.observedNonce, s.batchToken, s.timeout, s.txs, s.height);
    VotesKeptBy(w.chain, w'.chain, w.eth.log, honest);
  }

  lemma BuildKeepsLedgerOk(l: Ledger, eth: Ethereum, created: map<nat, Batch>, observed: nat,
                           token: Address, timeout: nat, txs: set<Transfer>, height: nat)
    requires LedgerOk(l, eth, created, observed) && LogOk(eth, created) && txs != {} && txs <= l.pool
    ensures var l' := Build(l, token, timeout, txs, height);
            var created' := created[l'.lastBatchId := l'.batches[l'.lastBatchId]];
            && LedgerOk(l', eth, created', observed)
            && LogOk(eth, created')
            && l'.lastBatchId !in created
  {
    hide Conserved;
    BuildConserves(l, token, timeout, txs, height);
    var l' := Build(l, token, timeout, txs, height);
    var created' := created[l'.lastBatchId := l'.batches[l'.lastBatchId]];
    forall i | 0 <= i < |eth.log| && eth.log[i].event.BatchExecuted?
      ensures ExecutedInTime(eth, created', eth.log[i])
    {
      assert ExecutedInTime(eth, created, eth.log[i]);
    }
  }

  lemma VoteStepKeepsInv(w: World, honest: set<Validator>, s: Step)
    requires Inv(w, honest) && Enabled(w, honest, s)
    requires s.Vote? || s.ResetOracle? || s.SetBridgeActive? || s.SetBridgeable?
    ensures Inv(Next(w, s), honest)
  {
    hide LedgerOk, LogOk, OneVotePerNonce, HonestVotes, Attest, Reset;
    var w' := Next(w, s);
    match s {
      case Vote(v, claim) =>
        VotesOnly(w.chain, v, claim, 0);
        AttestKeepsOneVotePerNonce(w.chain, v, claim);
        AttestKeepsHonestVotes(w.chain, w.eth.log, honest, v, claim);
      case ResetOracle(cutoff) =>
        VotesOnly(w.chain, 0, Claim(0, 0, LogicCallExecuted), cutoff);
        ResetKeepsOneVotePerNonce(w.chain, cutoff);
        ResetKeepsHonestVotes(w.chain, w.eth.log, honest, cutoff);
      case SetBridgeActive(_) =>
        VotesKeptBy(w.chain, w'.chain, w.eth.log, honest);
      case SetBridgeable(_) =>
        VotesKeptBy(w.chain, w'.chain, w.eth.log, honest);
    }
  }

  /** Voting and resetting touch votes only. */
  lemma VotesOnly(c: Chain, v: Validator, claim: Claim, cutoff: nat)
    ensures var d := Attest(c, v, claim); d == c.(attestations := d.attestations, validatorNonce := d.validatorNonce)
    ensures var d := Reset(c, cutoff); d == c.(attestations := d.attestations, validatorNonce := d.validatorNonce)
  {
  }

  lemma ResetKeepsHonestVotes(c: Chain, log: seq<Claim>, honest: set<Validator>, cutoff: nat)
    requires HonestVotes(c, log, honest)
    ensures HonestVotes(Reset(c, cutoff), log, honest)
  {
  }

  lemma AttestKeepsHonestVotes(c: Chain, log: seq<Claim>, honest: set<Validator>, v: Validator, claim: Claim)
    requires HonestVotes(c, log, honest) && (v in honest ==> IsReal(log, claim))
    ensures HonestVotes(Attest(c, v, claim), log, honest)
  {
    var c' := Attest(c, v, claim);
    forall n, i | n in c'.attestations && 0 <= i < |c'.attestations[n]|
      ensures HonestVote(log, honest, c'.attestations[n][i])
    {
      if i < |AttestationsAt(c, n)| {
        assert HonestVote(log, honest, AttestationsAt(c, n)[i]);
      }
    }
  }

  lemma StepKeepsInv(w: World, honest: set<Validator>, s: Step)
    requires Inv(w, honest) && Enabled(w, honest, s)
    ensures Next(w, s).chain.halted <==> s.RunEndBlock? && FatalRun(w, s.powers)
    ensures !Next(w, s).chain.halted ==> Inv(Next(w, s), honest)
  {
    hide Inv, FatalRun;
    NotHalted(w, honest);
    if s.EthereumMines? || s.ContractEvent? || s.SubmitLogicCall? || s.SubmitBatch? {
      EmitKeepsInv(w, honest, s);
    } else if s.SendToEth? || s.CancelSendToEth? {
      TransferStepKeepsInv(w, honest, s);
    } else if s.RequestBatch? {
      RequestBatchKeepsInv(w, honest, s);
    } else if s.RunEndBlock? {
      EndBlockKeepsInv(w, honest, s.powers);
    } else {
      VoteStepKeepsInv(w, honest, s);
    }
  }

  // ---------------------------------------------------------------------------------------------
  // Runs

  ghost predicate IsRun(ws: seq<World>, steps: seq<Step>, honest: set<Validator>, deployHeight: nat) {
    && |ws| == |steps| + 1
    && ws[0] == Genesis(deployHeight)
    && forall i :: 0 <= i < |steps| ==> Enabled(ws[i], honest, steps[i]) && ws[i + 1] == Next(ws[i], steps[i])
  }

  lemma GenesisInv(deployHeight: nat, honest: set<Validator>)
    ensures Inv(Genesis(deployHeight), honest)
  {
    var l := Genesis(deployHeight).chain.ledger;
    assert Batched(l) == {};
    assert Everything(l) == {};
  }

  /**
  In every run of the two chains the one thing that halts a block is a fatal event in the run it observes:
  no event is applied out of order, no observed execution is of an unknown or timed out batch, no height
  goes back and no cancelled transfer finds its place in the pool taken.
   */
  lemma {:induction false} EveryRunKeepsInv(ws: seq<World>, steps: seq<Step>, honest: set<Validator>,
        deployHeight: nat, k: nat)
    requires IsRun(ws, steps, honest, deployHeight) && k <= |steps|
    ensures !ws[k].chain.halted ==> Inv(ws[k], honest) && Conserved(ws[k].chain.ledger)
    ensures k < |steps| ==> !ws[k].chain.halted
    ensures ws[k].chain.halted <==> k > 0 && steps[k - 1].RunEndBlock? && FatalRun(ws[k - 1], steps[k - 1].powers)
  {
    hide Next, FatalRun;
    if k == 0 {
      GenesisInv(deployHeight, honest);
    } else {
      EveryRunKeepsInv(ws, steps, honest, deployHeight, k - 1);
      assert ws[k - 1 + 1] == Next(ws[k - 1], steps[k - 1]);
      StepKeepsInv(ws[k - 1], honest, steps[k - 1]);
    }
  }

  // ---------------------------------------------------------------------------------------------
  // Pruned history is never missed

  /** Two worlds that differ at most in attestations left behind. */
  ghost predicate SameButHistory(w: World, d: World) {
    d == w.(chain := d.chain) && SameAhead(w.chain, d.chain)
  }

  lemma BlockIgnoresHistory(c: Chain, d: Chain, powers: Powers)
    requires SameAhead(c, d)
    ensures SameAhead(EndBlock(c, powers), EndBlock(d, powers))
  {
    hide Tally, PruneAttestations, Returnable;
    TallyIgnoresHistory(c, d, powers);
    var t, u := Tally(c, powers), Tally(d, powers);
    assert SameAhead(Cleanup(t), Cleanup(u));
    PruneIgnoresHistory(Cleanup(t), Cleanup(u));
  }

  lemma StepIgnoresHistory(w: World, d: World, s: Step)
    requires SameButHistory(w, d)
    ensures SameButHistory(Next(w, s), Next(d, s))
  {
    hide EndBlock, Attest, Reset;
    match s
    case Vote(v, claim) => AttestIgnoresHistory(w.chain, d.chain, v, claim);
    case ResetOracle(cutoff) => ResetIgnoresHistory(w.chain, d.chain, cutoff);
    case RunEndBlock(powers) => BlockIgnoresHistory(w.chain, d.chain, powers);
    case _ =>
  }

  /** Forgetting attestations that were left behind never changes anything later, whatever steps follow. */
  lemma {:induction false} HistoryNeverMatters(ws: seq<World>, ds: seq<World>, steps: seq<Step>, k: nat)
    requires |ws| == |ds| == |steps| + 1 && k <= |steps| && SameButHistory(ws[0], ds[0])
    requires forall i :: 0 <= i < |steps| ==> ws[i + 1] == Next(ws[i], steps[i]) && ds[i + 1] == Next(ds[i], steps[i])
    ensures SameButHistory(ws[k], ds[k])
  {
    hide Next, SameButHistory;
    if k > 0 {
      HistoryNeverMatters(ws, ds, steps, k - 1);
      assert ws[k - 1 + 1] == Next(ws[k - 1], steps[k - 1]) && ds[k - 1 + 1] == Next(ds[k - 1], steps[k - 1]);
      StepIgnoresHistory(ws[k - 1], ds[k - 1], steps[k - 1]);
    }
  }
}
