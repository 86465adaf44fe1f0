/**
Outgoing transfers on the Cosmos chain: the pool of unbatched transfers and the stored batches.

The two stores hold sets of transfers. Batch nonces come from one counter for all tokens, so a
stored batch is found by its nonce and then compared by token. `refunded` and `burned` are the
history of where transfers went: back to the sender, or paid out on Ethereum.
 */
module Ledger {

  type Address = nat

  datatype Transfer = Transfer(id: nat, token: Address, amount: nat, fee: nat)

  /** `timeout` is an Ethereum height, `created` a Cosmos height. */
  datatype Batch = Batch(nonce: nat, token: Address, timeout: nat, txs: set<Transfer>, created: nat)

  datatype Ledger = Ledger(
    pool: set<Transfer>,
    batches: map<nat, Batch>,
    lastTxId: nat,
    lastBatchId: nat,
    refunded: set<Transfer>,
    burned: set<Transfer>)

  /** A Go panic in a block halts the chain. */
  datatype Outcome = Done(ledger: Ledger) | Panic

  /** The transfers of the batches with the given nonces. */
  function TransfersOf(batches: map<nat, Batch>, nonces: set<nat>): set<Transfer> {
    set n, t | n in nonces && n in batches && t in batches[n].txs :: t
  }

  function Batched(l: Ledger): set<Transfer> {
    TransfersOf(l.batches, l.batches.Keys)
  }

  /** The pool's key is fee contract, fee and id. */
  predicate SamePoolKey(a: Transfer, b: Transfer) {
    a.id == b.id && a.token == b.token && a.fee == b.fee
  }

  predicate InPool(pool: set<Transfer>, t: Transfer) {
    exists u :: u in pool && SamePoolKey(t, u)
  }

  /** Every transfer of the batches can go back into the pool without hitting a taken key. */
  predicate Returnable(l: Ledger, nonces: set<nat>) {
    && (forall t :: t in TransfersOf(l.batches, nonces) ==> !InPool(l.pool, t))
    && (forall t, u :: t in TransfersOf(l.batches, nonces) && u in TransfersOf(l.batches, nonces) && t != u
                       ==> !SamePoolKey(t, u))
    && (forall m, n :: m in nonces && n in nonces && m != n && m in l.batches && n in l.batches
                       ==> l.batches[m].txs !! l.batches[n].txs)
  }

  /** The ledger after cancelling all the given batches. */
  function Cancelled(l: Ledger, nonces: set<nat>): Ledger {
    l.(pool := l.pool + TransfersOf(l.batches, nonces), batches := l.batches - nonces)
  }

  function Cancel(l: Ledger, nonces: set<nat>): Outcome {
    if Returnable(l, nonces) then Done(Cancelled(l, nonces)) else Panic
  }

  /** Stored batches of `token` that a batch with nonce `n` supersedes. */
  function Superseded(l: Ledger, token: Address, n: nat): set<nat> {
    set m | m in l.batches && m < n && l.batches[m].token == token
  }

  predicate Stored(l: Ledger, token: Address, n: nat) {
    n in l.batches && l.batches[n].token == token
  }

  /** A batch was executed on Ethereum at `height`: burn it, cancel the earlier ones of its token. */
  function Executed(l: Ledger, token: Address, n: nat, height: nat): Outcome {
    if !Stored(l, token, n) then Panic
    else if l.batches[n].timeout <= height then Panic
    else
      match Cancel(l, Superseded(l, token, n))
      case Panic => Panic
      case Done(l') =>
        Done(l'.(batches := l'.batches - {n}, burned := l'.burned + l.batches[n].txs))
  }

  /** Stored batches that the last observed Ethereum height has left behind. */
  function TimedOut(l: Ledger, height: nat): set<nat> {
    set n | n in l.batches && l.batches[n].timeout < height
  }

  /** MsgSendToEth: the next id, into the pool. */
  function Send(l: Ledger, token: Address, amount: nat, fee: nat): Ledger {
    l.(pool := l.pool + {Transfer(l.lastTxId + 1, token, amount, fee)}, lastTxId := l.lastTxId + 1)
  }

  /** MsgCancelSendToEth: only a transfer that is in the pool can be refunded. */
  function Refund(l: Ledger, t: Transfer): Ledger {
    if t in l.pool then l.(pool := l.pool - {t}, refunded := l.refunded + {t}) else l
  }

  /** MsgRequestBatch: `txs` are the picked pool transfers of `token`. */
  function Build(l: Ledger, token: Address, timeout: nat, txs: set<Transfer>, height: nat): Ledger {
    var n := l.lastBatchId + 1;
    l.(pool := l.pool - txs, batches := l.batches[n := Batch(n, token, timeout, txs, height)], lastBatchId := n)
  }

  /** Transfers are told apart by their id. */
  ghost predicate UniqueIds(s: set<Transfer>) {
    forall t, u :: t in s && u in s && t.id == u.id ==> t == u
  }

  ghost function Everything(l: Ledger): set<Transfer> {
    l.pool + Batched(l) + l.refunded + l.burned
  }

  /**
  Conservation: every transfer ever sent is in exactly one of the pool, one stored batch, the
  refunds and the burned transfers; ids are below the counters.
   */
  ghost predicate Conserved(l: Ledger) {
    && UniqueIds(Everything(l))
    && (forall t :: t in Everything(l) ==> t.id <= l.lastTxId)
    && (forall n :: n in l.batches ==> l.batches[n].nonce == n && n <= l.lastBatchId)
    && (forall m, n :: m in l.batches && n in l.batches && m != n ==> l.batches[m].txs !! l.batches[n].txs)
    && l.pool !! Batched(l)
    && (l.pool + Batched(l)) !! l.refunded
    && (l.pool + Batched(l)) !! l.burned
    && l.refunded !! l.burned
  }

  /** In a conserved ledger no cancellation hits a taken pool key. */
  lemma CancelNeverPanics(l: Ledger, nonces: set<nat>)
    requires Conserved(l)
    ensures Returnable(l, nonces)
  {
    forall t, u | t in TransfersOf(l.batches, nonces) && u in l.pool
      ensures !SamePoolKey(t, u)
    {
      assert t in Batched(l) && u in Everything(l);
    }
    forall t, u | t in TransfersOf(l.batches, nonces) && u in TransfersOf(l.batches, nonces) && t != u
      ensures !SamePoolKey(t, u)
    {
      assert t in Batched(l) && u in Batched(l);
    }
  }

  /** Cancelling moves transfers from batches to the pool and loses none. */
  lemma CancelConserves(l: Ledger, nonces: set<nat>)
    requires Conserved(l)
    ensures Conserved(Cancelled(l, nonces))
    ensures Everything(Cancelled(l, nonces)) == Everything(l)
    ensures Batched(Cancelled(l, nonces)) == Batched(l) - TransfersOf(l.batches, nonces)
  {
    var l' := Cancelled(l, nonces);
    BatchedSplits(l, nonces);
    assert Everything(l') == Everything(l);
  }

  lemma BatchedSplits(l: Ledger, nonces: set<nat>)
    requires forall m, n :: m in l.batches && n in l.batches && m != n ==> l.batches[m].txs !! l.batches[n].txs
    ensures TransfersOf(l.batches - nonces, (l.batches - nonces).Keys) == Batched(l) - TransfersOf(l.batches, nonces)
    ensures TransfersOf(l.batches, nonces) <= Batched(l)
  {
    var rest := l.batches - nonces;
    forall t | t in Batched(l) - TransfersOf(l.batches, nonces)
      ensures t in TransfersOf(rest, rest.Keys)
    {
      var n :| n in l.batches && t in l.batches[n].txs;
      assert n !in nonces;
      assert n in rest && rest[n] == l.batches[n];
    }
  }

  lemma ExecutedConserves(l: Ledger, token: Address, n: nat, height: nat)
    requires Conserved(l)
    requires Stored(l, token, n) && height < l.batches[n].timeout
    ensures Executed(l, token, n, height).Done?
    ensures var l' := Executed(l, token, n, height).ledger;
            && Conserved(l')
            && Everything(l') == Everything(l)
            && l'.batches == l.batches - (Superseded(l, token, n) + {n})
            && l'.burned == l.burned + l.batches[n].txs
            && l'.refunded == l.refunded && l'.lastBatchId == l.lastBatchId
            && l'.pool == l.pool + TransfersOf(l.batches, Superseded(l, token, n))
  {
    var older := Superseded(l, token, n);
    CancelNeverPanics(l, older);
    CancelConserves(l, older);
    var l1 := Cancelled(l, older);
    var l' := Executed(l, token, n, height).ledger;
    BatchedSplits(l1, {n});
    assert l1.batches[n] == l.batches[n];
    assert TransfersOf(l1.batches, {n}) == l.batches[n].txs;
    assert Everything(l') == Everything(l1);
    assert l'.batches == l.batches - (older + {n});
  }

  /**
  An execution removes exactly the batches of the token up to the executed one. What was in the older ones is back
  in the pool, what was in the executed one is burned, and every other batch is as it was.
   */
  lemma ExecutedExactly(l: Ledger, token: Address, n: nat, height: nat)
    requires Conserved(l)
    requires Stored(l, token, n) && height < l.batches[n].timeout
    ensures Executed(l, token, n, height).Done?
    ensures var l' := Executed(l, token, n, height).ledger;
            && (forall m :: m in l'.batches <==> m in l.batches && (l.batches[m].token != token || m > n))
            && (forall m :: m in l'.batches ==> l'.batches[m] == l.batches[m])
            && (forall t :: t in l'.pool <==>
                  t in l.pool || exists m :: m in l.batches && l.batches[m].token == token && m < n && t in l.batches[m].txs)
            && (forall t :: t in l'.burned <==> t in l.burned || t in l.batches[n].txs)
            && l'.refunded == l.refunded && l'.lastTxId == l.lastTxId && l'.lastBatchId == l.lastBatchId
  {
    hide Conserved, Returnable;
    ExecutedConserves(l, token, n, height);
    CancelNeverPanics(l, Superseded(l, token, n));
  }

  /** An execution panics exactly when its batch is not stored under that token or was executed at or after its timeout. */
  lemma ExecutedPanicsIff(l: Ledger, token: Address, n: nat, height: nat)
    requires Conserved(l)
    ensures Executed(l, token, n, height).Panic? <==>
      n !in l.batches || l.batches[n].token != token || height >= l.batches[n].timeout
  {
    hide Conserved, Returnable;
    CancelNeverPanics(l, Superseded(l, token, n));
  }

  /** Clearing timed out batches removes exactly those with a timeout below the height and pools what was in them. */
  lemma CleanupExactly(l: Ledger, height: nat)
    requires Conserved(l)
    ensures Cancel(l, TimedOut(l, height)).Done?
    ensures var l' := Cancel(l, TimedOut(l, height)).ledger;
            && (forall m :: m in l'.batches <==> m in l.batches && l.batches[m].timeout >= height)
            && (forall m :: m in l'.batches ==> l'.batches[m] == l.batches[m])
            && (forall t :: t in l'.pool <==>
                  t in l.pool || exists m :: m in l.batches && l.batches[m].timeout < height && t in l.batches[m].txs)
            && l' == l.(batches := l'.batches, pool := l'.pool)
  {
    hide Conserved, Returnable;
    CancelNeverPanics(l, TimedOut(l, height));
  }

  lemma SendConserves(l: Ledger, token: Address, amount: nat, fee: nat)
    requires Conserved(l)
    ensures var l', t := Send(l, token, amount, fee), Transfer(l.lastTxId + 1, token, amount, fee);
            && Conserved(l')
            && (forall u :: u in Everything(l) ==> u.id != t.id)
            && t in l'.pool && Everything(l') == Everything(l) + {t}
            && l'.batches == l.batches && l'.refunded == l.refunded && l'.burned == l.burned
  {
    var l' := Send(l, token, amount, fee);
    assert Batched(l') == Batched(l);
    assert Everything(l') == Everything(l) + {Transfer(l.lastTxId + 1, token, amount, fee)};
  }

  lemma RefundConserves(l: Ledger, t: Transfer)
    requires Conserved(l)
    ensures Conserved(Refund(l, t)) && Everything(Refund(l, t)) == Everything(l)
    ensures t !in l.pool ==> Refund(l, t) == l
    ensures t in l.pool ==> t in Refund(l, t).refunded && t !in Refund(l, t).pool + Batched(Refund(l, t)) + Refund(l, t).burned
  {
    assert Batched(Refund(l, t)) == Batched(l);
    assert Everything(Refund(l, t)) == Everything(l);
  }

  lemma BuildConserves(l: Ledger, token: Address, timeout: nat, txs: set<Transfer>, height: nat)
    requires Conserved(l) && txs <= l.pool
    ensures Conserved(Build(l, token, timeout, txs, height))
    ensures Everything(Build(l, token, timeout, txs, height)) == Everything(l)
    ensures Batched(Build(l, token, timeout, txs, height)) == Batched(l) + txs
    ensures var l' := Build(l, token, timeout, txs, height);
            && l.lastBatchId + 1 !in l.batches && l'.lastBatchId == l.lastBatchId + 1
            && l'.batches == l.batches[l'.lastBatchId := Batch(l'.lastBatchId, token, timeout, txs, height)]
            && l'.lastTxId == l.lastTxId && l'.refunded == l.refunded && l'.burned == l.burned
  {
    var l' := Build(l, token, timeout, txs, height);
    var n := l.lastBatchId + 1;
    assert n !in l.batches && l'.batches[n].txs == txs;
    forall t | t in Batched(l) + txs
      ensures t in Batched(l')
    {
      if t in txs {
        assert n in l'.batches && t in l'.batches[n].txs;
      } else {
        var m :| m in l.batches && t in l.batches[m].txs;
        assert m in l'.batches && l'.batches[m] == l.batches[m];
      }
    }
    assert Batched(l') == Batched(l) + txs;
    assert Everything(l') == Everything(l);
  }
}
