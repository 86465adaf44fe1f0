/**
The gravity keeper: the stores that EndBlocker updates, and the loops that update them.

Every method is proved against the function of the same operation in Ledger and Attestations. Stores
are iterated in arbitrary order where the result does not depend on it, so the proofs cover the
order of the key-value store.
 */
module Keeper {
  import opened Quorum
  import opened Ledger
  import opened Attestations
  import opened Sorting

  /** After a panic the block is not committed, so only the fact of the halt is compared. */
  ghost predicate Agrees(a: Chain, b: Chain) {
    a.halted == b.halted && (!a.halted ==> a == b)
  }

  function HaltUnless(c: Chain, o: Outcome): Chain {
    match o
    case Panic => Halt(c)
    case Done(l) => c.(ledger := l)
  }

  function CancelBatch(c: Chain, nonces: set<nat>): Chain {
    HaltUnless(c, Cancel(c.ledger, nonces))
  }

  /** cleanupTimedOutBatches: cancel what the last observed Ethereum height has left behind. */
  function Cleanup(c: Chain): Chain {
    CancelBatch(c, TimedOut(c.ledger, c.observedHeight))
  }

  /** The tally, the timeouts and the pruning of one block, in EndBlocker's order. */
  function EndBlock(c: Chain, powers: Powers): Chain {
    var t := Tally(c, powers);
    if t.halted then t
    else
      var u := Cleanup(t);
      if u.halted then u else PruneAttestations(u)
  }

  /** Cancelling batch by batch is cancelling them all. */
  lemma CancelOneMore(l: Ledger, nonces: set<nat>, n: nat)
    requires n !in nonces && n in l.batches && Returnable(l, nonces)
    ensures Returnable(l, nonces + {n}) <==> Returnable(Cancelled(l, nonces), {n})
    ensures Cancelled(l, nonces + {n}) == Cancelled(Cancelled(l, nonces), {n})
  {
    var l1 := Cancelled(l, nonces);
    var a, b, ab := TransfersOf(l.batches, nonces), TransfersOf(l1.batches, {n}), TransfersOf(l.batches, nonces + {n});
    assert l1.batches[n] == l.batches[n];
    assert b == l.batches[n].txs;
    assert ab == a + b;
    if Returnable(l, nonces + {n}) {
      forall t, u | t in b && u in l1.pool
        ensures !SamePoolKey(t, u)
      {
        assert t in ab;
        if u in a {
          assert u in ab;
          var m :| m in nonces && m in l.batches && u in l.batches[m].txs;
          assert l.batches[m].txs !! l.batches[n].txs;
        } else {
          assert !InPool(l.pool, t);
        }
      }
      assert Returnable(l1, {n});
    }
    if Returnable(l1, {n}) {
      forall t, u | t in ab && u in l.pool
        ensures !SamePoolKey(t, u)
      {
        if t in b {
          assert !InPool(l1.pool, t) && u in l1.pool;
        } else {
          assert !InPool(l.pool, t);
        }
      }
      forall t, u | t in ab && u in ab && t != u
        ensures !SamePoolKey(t, u)
      {
        if t in b && u in a {
          assert !InPool(l1.pool, t) && u in l1.pool;
        } else if t in a && u in b {
          assert !InPool(l1.pool, u) && t in l1.pool;
        }
      }
      forall m | m in nonces && m in l.batches
        ensures l.batches[m].txs !! l.batches[n].txs
      {
        forall t | t in l.batches[m].txs
          ensures t !in l.batches[n].txs
        {
          assert t in a && t in l1.pool && SamePoolKey(t, t);
        }
      }
      assert Returnable(l, nonces + {n});
    }
  }

  /** A cancellation that panics at one batch panics for any larger set of batches. */
  lemma PanicSpreads(l: Ledger, nonces: set<nat>, more: set<nat>)
    requires nonces <= more && !Returnable(l, nonces)
    ensures !Returnable(l, more)
  {
    assert TransfersOf(l.batches, nonces) <= TransfersOf(l.batches, more);
  }

  lemma CancelNone(c: Chain)
    ensures Returnable(c.ledger, {}) && CancelBatch(c, {}) == c
  {
    assert TransfersOf(c.ledger.batches, {}) == {};
    assert Cancelled(c.ledger, {}) == c.ledger;
  }

  lemma CancelStep(c: Chain, done: set<nat>, n: nat)
    requires Returnable(c.ledger, done) && n !in done && n in c.ledger.batches && !c.halted
    ensures var d := CancelBatch(c, done);
            && n in d.ledger.batches
            && CancelBatch(d, {n}).halted == !Returnable(c.ledger, done + {n})
            && (Returnable(c.ledger, done + {n}) ==> CancelBatch(d, {n}) == CancelBatch(c, done + {n}))
  {
    hide Returnable;
    CancelOneMore(c.ledger, done, n);
  }

  lemma CancelPanics(c: Chain, due: set<nat>)
    requires !Returnable(c.ledger, due)
    ensures CancelBatch(c, due).halted
  {
  }

  ghost predicate VotedOn(atts: seq<Attestation>, v: Validator) {
    exists i :: 0 <= i < |atts| && v in atts[i].votes
  }

  /** Everybody who voted on one of the attestations. */
  method VotersOn(atts: seq<Attestation>) returns (voters: set<Validator>)
    ensures forall v :: v in voters <==> VotedOn(atts, v)
  {
    voters := {};
    for i := 0 to |atts|
      invariant forall v :: v in voters <==> exists j :: 0 <= j < i && v in atts[j].votes
    {
      for k := 0 to |atts[i].votes|
        invariant forall v :: v in voters <==> v in atts[i].votes[..k] || exists j :: 0 <= j < i && v in atts[j].votes
      {
        voters := voters + {atts[i].votes[k]};
      }
      assert atts[i].votes[..|atts[i].votes|] == atts[i].votes;
    }
  }

  /** Everybody who voted at one of the nonces. */
  ghost function VotersIn(atts: map<nat, seq<Attestation>>, nonces: set<nat>): set<Validator> {
    set n, i, v | n in nonces && n in atts && 0 <= i < |atts[n]| && v in atts[n][i].votes :: v
  }

  lemma NoVoters(atts: map<nat, seq<Attestation>>)
    ensures VotersIn(atts, {}) == {}
  {
  }

  lemma MoreVoters(atts: map<nat, seq<Attestation>>, nonces: set<nat>, n: nat, voters: set<Validator>)
    requires n in atts && forall v :: v in voters <==> VotedOn(atts[n], v)
    ensures VotersIn(atts, nonces + {n}) == VotersIn(atts, nonces) + voters
  {
    forall v | v in voters
      ensures v in VotersIn(atts, nonces + {n})
    {
      assert VotedOn(atts[n], v);
      var i :| 0 <= i < |atts[n]| && v in atts[n][i].votes;
    }
    forall v | v in VotersIn(atts, nonces + {n})
      ensures v in VotersIn(atts, nonces) + voters
    {
      var m, i :| m in nonces + {n} && m in atts && 0 <= i < |atts[m]| && v in atts[m][i].votes;
      if m == n {
        assert VotedOn(atts[n], v);
      }
    }
  }

  lemma VotersInAbove(c: Chain, cutoff: nat)
    ensures VotersIn(c.attestations, set n | n in c.attestations && n > cutoff) == VotersAbove(c, cutoff)
  {
  }

  /** The nonces after sending those of the validators back that are ahead of the cutoff. */
  function SentBack(c: Chain, vs: set<Validator>, cutoff: nat): map<Validator, nat> {
    c.validatorNonce + map v | v in vs && LastEventNonce(c, v) > cutoff :: cutoff
  }

  lemma ResetDone(c: Chain, atts: map<nat, seq<Attestation>>, cutoff: nat)
    requires cutoff >= c.observedNonce && cutoff > 0 && atts == map n | n in c.attestations && n <= cutoff :: c.attestations[n]
    ensures Reset(c, cutoff) ==
      c.(attestations := atts, validatorNonce := SentBack(c.(attestations := atts), VotersAbove(c, cutoff), cutoff))
  {
    hide VotersAbove;
  }

  lemma NobodySentBack(c: Chain, cutoff: nat)
    ensures SentBack(c, {}, cutoff) == c.validatorNonce
  {
  }

  lemma OneMoreSentBack(c: Chain, vs: set<Validator>, v: Validator, cutoff: nat)
    requires v !in vs
    ensures LastEventNonce(c.(validatorNonce := SentBack(c, vs, cutoff)), v) == LastEventNonce(c, v)
    ensures SentBack(c, vs + {v}, cutoff) ==
      if LastEventNonce(c, v) > cutoff then SentBack(c, vs, cutoff)[v := cutoff] else SentBack(c, vs, cutoff)
  {
    hide LastEventNonce;
    SameLast(c, SentBack(c, vs, cutoff), v);
  }

  lemma SameLast(c: Chain, nonces: map<Validator, nat>, v: Validator)
    requires (v in nonces <==> v in c.validatorNonce) && (v in nonces ==> nonces[v] == c.validatorNonce[v])
    ensures LastEventNonce(c.(validatorNonce := nonces), v) == LastEventNonce(c, v)
  {
  }

  /** Some transfer would get a pool key, made of token, fee and id, that another one has. */
  ghost predicate KeyTaken(pool: set<Transfer>, txs: set<Transfer>) {
    exists t, u :: t in txs && (u in pool || (u in txs && u != t)) && t.id == u.id && t.token == u.token && t.fee == u.fee
  }

  class GravityKeeper {
    var pool: set<Transfer>
    var batches: map<nat, Batch>
    var lastTxId: nat
    var lastBatchId: nat
    var refunded: set<Transfer>
    var burned: set<Transfer>
    var attestations: map<nat, seq<Attestation>>
    var validatorNonce: map<Validator, nat>
    var lastObservedNonce: nat
    var lastObservedHeight: nat
    var bridgeActive: bool
    var bridgeable: set<Address>
    var halted: bool

    function LedgerView(): Ledger
      reads this
    {
      Ledger(pool, batches, lastTxId, lastBatchId, refunded, burned)
    }

    function Snapshot(): Chain
      reads this
    {
      Chain(LedgerView(), attestations, validatorNonce, lastObservedNonce, lastObservedHeight, bridgeActive, bridgeable, halted)
    }

    /** A validator's claim is refused unless it is for its next nonce. */
    method Attest(v: Validator, claim: Claim) returns (accepted: bool)
      modifies this`attestations, this`validatorNonce
      ensures accepted <==> claim.nonce == LastEventNonce(old(Snapshot()), v) + 1
      ensures Snapshot() == Attestations.Attest(old(Snapshot()), v, claim)
    {
      accepted := claim.nonce == LastEventNonce(Snapshot(), v) + 1;
      if !accepted {
        return;
      }
      var atts := AttestationsAt(Snapshot(), claim.nonce);
      var i := IndexOf(atts, claim);
      var att := if i < |atts| then atts[i] else Attestation(false, [], claim);
      att := att.(votes := att.votes + [v]);
      assert [] + [v] == [v];
      attestations := attestations[claim.nonce := if i < |atts| then atts[i := att] else atts + [att]];
      validatorNonce := validatorNonce[v := claim.nonce];
    }

    /** Deletes the attestations above the cutoff and sends everybody who voted there back to it. */
    method PruneAttestationsAfterNonce(cutoff: nat)
      modifies this`attestations, this`validatorNonce
      ensures Snapshot() == Reset(old(Snapshot()), cutoff)
    {
      hide VotersAbove, LastEventNonce, SentBack;
      if cutoff < lastObservedNonce || cutoff == 0 {
        return;
      }
      var affected := DeleteAbove(cutoff);
      ResetNonces(affected, cutoff);
      ResetDone(old(Snapshot()), attestations, cutoff);
    }

    /** Also tells who voted on what is deleted. */
    method DeleteAbove(cutoff: nat) returns (affected: set<Validator>)
      modifies this`attestations
      ensures attestations == map n | n in old(attestations) && n <= cutoff :: old(attestations)[n]
      ensures affected == VotersAbove(old(Snapshot()), cutoff)
    {
      hide VotersIn;
      affected := {};
      var stored := attestations;
      ghost var above := set n | n in stored && n > cutoff;
      var todo := stored.Keys;
      NoVoters(stored);
      assert above - todo == {};
      while todo != {}
        invariant todo <= stored.Keys
        invariant attestations == stored - (above - todo)
        invariant affected == VotersIn(stored, above - todo)
        decreases todo
      {
        var n :| n in todo;
        ghost var done := above - todo;
        todo := todo - {n};
        if n > cutoff {
          var voters := VotersOn(stored[n]);
          MoreVoters(stored, done, n, voters);
          assert above - todo == done + {n};
          affected := affected + voters;
          attestations := attestations - {n};
        } else {
          assert above - todo == done;
        }
      }
      assert above - todo == above;
      VotersInAbove(old(Snapshot()), cutoff);
    }

    method ResetNonces(affected: set<Validator>, cutoff: nat)
      modifies this`validatorNonce
      ensures validatorNonce == SentBack(old(Snapshot()), affected, cutoff)
    {
      hide SentBack, LastEventNonce;
      var todo := affected;
      ghost var c := Snapshot();
      assert affected - todo == {};
      NobodySentBack(c, cutoff);
      while todo != {}
        invariant todo <= affected
        invariant Snapshot() == c.(validatorNonce := SentBack(c, affected - todo, cutoff))
        decreases todo
      {
        var v :| v in todo;
        OneMoreSentBack(c, affected - todo, v, cutoff);
        assert affected - (todo - {v}) == affected - todo + {v};
        todo := todo - {v};
        if LastEventNonce(Snapshot(), v) > cutoff {
          validatorNonce := validatorNonce[v := cutoff];
        }
      }
      assert affected - todo == affected;
    }

    /** Releases all transfers of the batch and deletes it; a taken pool key is a panic. */
    method CancelOutgoingTxBatch(n: nat)
      requires !halted && n in batches
      modifies this`pool, this`batches, this`halted
      ensures Agrees(Snapshot(), CancelBatch(old(Snapshot()), {n}))
      ensures halted <==> KeyTaken(old(pool), old(batches)[n].txs)
    {
      var txs := batches[n].txs;
      ghost var l := LedgerView();
      assert TransfersOf(l.batches, {n}) == txs;
      var todo := txs;
      while todo != {}
        invariant batches == l.batches && !halted
        invariant todo <= txs
        invariant pool == l.pool + (txs - todo)
        invariant forall t :: t in txs - todo ==> !InPool(l.pool, t)
        invariant forall t, u :: t in txs - todo && u in txs - todo && t != u ==> !SamePoolKey(t, u)
        decreases todo
      {
        var t :| t in todo;
        if exists u :: u in pool && SamePoolKey(t, u) {
          var u :| u in pool && SamePoolKey(t, u);
          assert u in l.pool ==> InPool(l.pool, t);
          assert t in txs && (u in l.pool || (u in txs && u != t));
          halted := true;
          return;
        }
        assert !InPool(l.pool, t);
        pool, todo := pool + {t}, todo - {t};
      }
      batches := batches - {n};
      assert Returnable(l, {n});
    }

    /** Visits all stored batches and cancels the due ones. */
    method CancelDue(due: set<nat>)
      requires !halted && due <= batches.Keys
      modifies this`pool, this`batches, this`halted
      ensures Agrees(Snapshot(), CancelBatch(old(Snapshot()), due))
    {
      hide CancelBatch, Returnable;
      ghost var c := Snapshot();
      var todo := batches.Keys;
      ghost var done: set<nat> := {};
      CancelNone(c);
      while todo != {}
        invariant todo <= c.ledger.batches.Keys
        invariant done == due - todo
        invariant !halted && Returnable(c.ledger, done) && Snapshot() == CancelBatch(c, done)
        decreases todo
      {
        var n :| n in todo;
        todo := todo - {n};
        if n in due {
          assert n !in done;
          CancelStep(c, done, n);
          CancelOutgoingTxBatch(n);
          if halted {
            PanicSpreads(c.ledger, done + {n}, due);
            CancelPanics(c, due);
            return;
          }
          done := done + {n};
        }
      }
      assert done == due;
    }

    /** Deletes every stored batch that has passed its timeout on Ethereum. */
    method CleanupTimedOutBatches()
      requires !halted
      modifies this`pool, this`batches, this`halted
      ensures Agrees(Snapshot(), Cleanup(old(Snapshot())))
    {
      CancelDue(TimedOut(LedgerView(), lastObservedHeight));
    }

    /** A batch was executed on Ethereum: cancel the earlier ones of its token, then drop it. */
    method OutgoingTxBatchExecuted(token: Address, n: nat, height: nat)
      requires !halted
      modifies this`pool, this`batches, this`burned, this`halted
      ensures Agrees(Snapshot(), HaltUnless(old(Snapshot()), Executed(old(LedgerView()), token, n, height)))
    {
      hide Returnable;
      if n !in batches || batches[n].token != token {
        halted := true;
        return;
      }
      if batches[n].timeout <= height {
        halted := true;
        return;
      }
      var txs := batches[n].txs;
      CancelDue(Superseded(LedgerView(), token, n));
      if halted {
        return;
      }
      batches := batches - {n};
      burned := burned + txs;
    }

    /** Applies a claim to the state; a handler error is logged and leaves the state as it was. */
    method ProcessAttestation(claim: Claim)
      requires !halted
      modifies this`pool, this`batches, this`burned, this`halted
      ensures Agrees(Snapshot(), HaltUnless(old(Snapshot()), Handle(old(LedgerView()), bridgeable, claim)))
    {
      match claim.event {
        case BatchExecuted(token, n) =>
          if token in bridgeable {
            OutgoingTxBatchExecuted(token, n, claim.height);
          }
        case LogicCallExecuted =>
          halted := true;
        case Other(_, panics) =>
          halted := panics;
      }
    }

    /** Counts the votes until they pass the threshold, then marks the attestation and applies its claim. */
    method TryAttestation(powers: Powers, n: nat, i: nat)
      requires !halted && n in attestations && i < |attestations[n]|
      modifies this
      ensures Agrees(Snapshot(), Try(old(Snapshot()), powers, n, i))
      ensures var att := old(attestations)[n][i];
        HasQuorum(powers, att.votes) && (att.claim.nonce != old(lastObservedNonce) + 1 || att.claim.height < old(lastObservedHeight))
        ==> halted
    {
      var att := attestations[n][i];
      if att.observed {
        halted := true;
        return;
      }
      var required := RequiredPower(powers);
      var power := 0;
      for k := 0 to |att.votes|
        invariant Snapshot() == old(Snapshot())
        invariant power == VotePower(powers, att.votes[..k]) && power <= required
      {
        power := power + PowerOf(powers, att.votes[k]);
        assert att.votes[..k + 1][..k] == att.votes[..k];
        if power > required {
          VotePowerGrows(powers, att.votes, k + 1);
          if att.claim.nonce != lastObservedNonce + 1 || lastObservedHeight > att.claim.height {
            halted := true;
            return;
          }
          lastObservedNonce := att.claim.nonce;
          lastObservedHeight := att.claim.height;
          attestations := attestations[n := attestations[n][i := att.(observed := true)]];
          ProcessAttestation(att.claim);
          return;
        }
      }
      assert att.votes[..|att.votes|] == att.votes;
    }

    /** One pass over all attestations in order of nonce. */
    method AttestationTally(powers: Powers)
      requires !halted
      modifies this
      ensures Agrees(Snapshot(), Tally(old(Snapshot()), powers))
    {
      hide Tally, TallyLoop, Visited;
      StuckTally(Snapshot(), powers);
      if !bridgeActive {
        return;
      }
      var attmap := attestations;
      var keys := SortKeys(attmap.Keys);
      ghost var t := Tally(Snapshot(), powers);
      LoopStarts(Snapshot(), powers);
      assert keys[..0] == [];
      for k := 0 to |keys|
        invariant TallyLoop(Snapshot(), powers, t, attmap, keys[..k])
      {
        var nonce := keys[k];
        assert nonce in Elements(keys);
        ghost var c := Snapshot();
        LoopVisits(c, powers, t, attmap, keys[..k], nonce);
        VisitNonce(powers, nonce, attmap[nonce], t);
        if halted {
          VisitHalts(c, powers, t, nonce, Snapshot());
          return;
        }
        LoopContinues(c, powers, t, attmap, keys[..k], nonce, Snapshot());
        assert keys[..k + 1] == keys[..k] + [nonce];
      }
      assert keys[..|keys|] == keys;
      LoopEnds(Snapshot(), powers, t, attmap, keys);
    }

    /** The attestations of one nonce, tried while the nonce is the next to observe. */
    method VisitNonce(powers: Powers, nonce: nat, atts: seq<Attestation>, ghost t: Chain)
      requires !halted && bridgeActive && Tally(Snapshot(), powers) == t
      requires nonce in attestations && (nonce > lastObservedNonce ==> attestations[nonce] == atts)
      modifies this
      ensures Visited(old(Snapshot()), powers, t, nonce, Snapshot())
    {
      hide Try, Hit;
      for i := 0 to |atts|
        invariant !halted && bridgeActive && Tally(Snapshot(), powers) == t
        invariant attestations.Keys == old(attestations.Keys)
        invariant forall q :: q in attestations && q > lastObservedNonce ==> attestations[q] == old(attestations)[q]
        invariant if lastObservedNonce == old(lastObservedNonce)
                  then Snapshot() == old(Snapshot()) && (nonce == lastObservedNonce + 1 ==> forall j :: 0 <= j < i ==> !Hit(powers, atts[j]))
                  else lastObservedNonce == nonce == old(lastObservedNonce) + 1
      {
        if nonce == lastObservedNonce + 1 {
          ghost var c := Snapshot();
          TryAttestation(powers, nonce, i);
          TryStep(c, powers, nonce, i);
          if halted {
            return;
          }
        }
      }
      if nonce == lastObservedNonce + 1 {
        FirstHitIsLast(powers, atts);
      }
    }

    /** Deletes attestations that are more than EVENTS_TO_KEEP behind. */
    method PruneOldAttestations()
      modifies this`attestations
      ensures Snapshot() == PruneAttestations(old(Snapshot()))
    {
      if lastObservedNonce <= EVENTS_TO_KEEP {
        return;
      }
      var cutoff := lastObservedNonce - EVENTS_TO_KEEP;
      ghost var stored := attestations;
      ghost var passed := set n | n in stored && n < cutoff;
      var todo := attestations.Keys;
      while todo != {}
        invariant todo <= stored.Keys
        invariant attestations == stored - (passed - todo)
        decreases todo
      {
        var n :| n in todo;
        todo := todo - {n};
        if n < cutoff {
          attestations := attestations - {n};
        }
      }
      assert stored - passed == map n | n in stored && n >= cutoff :: stored[n];
    }

    /** EndBlocker, without slashing, which only reads the stored batches, and valsets, which have stores of their own. */
    method EndBlocker(powers: Powers)
      requires !halted
      modifies this
      ensures Agrees(Snapshot(), EndBlock(old(Snapshot()), powers))
    {
      hide Tally, Cleanup, PruneAttestations;
      AttestationTally(powers);
      if halted {
        return;
      }
      CleanupTimedOutBatches();
      if halted {
        return;
      }
      PruneOldAttestations();
    }
  }

  /** No attestation at the next nonce can be acted on, so the tally is over. */
  ghost predicate Stuck(c: Chain, powers: Powers) {
    FirstHit(powers, AttestationsAt(c, c.observedNonce + 1)) == |AttestationsAt(c, c.observedNonce + 1)|
  }

  lemma StuckTally(c: Chain, powers: Powers)
    ensures !c.active ==> Tally(c, powers) == c
    ensures c.observedNonce + 1 !in c.attestations ==> Stuck(c, powers)
    ensures Stuck(c, powers) ==> Tally(c, powers) == c
  {
  }

  lemma FirstHitIsLast(powers: Powers, atts: seq<Attestation>)
    requires forall j :: 0 <= j < |atts| ==> !Hit(powers, atts[j])
    ensures FirstHit(powers, atts) == |atts|
  {
  }

  /** What visiting one nonce of the tally's list does. */
  ghost predicate Visited(c: Chain, powers: Powers, t: Chain, nonce: nat, c': Chain) {
    && (c'.halted ==> t.halted)
    && (!c'.halted ==>
          && c'.active && Tally(c', powers) == t
          && c'.attestations.Keys == c.attestations.Keys
          && (forall q :: q in c'.attestations && q > c'.observedNonce ==> c'.attestations[q] == c.attestations[q])
          && (if c'.observedNonce == c.observedNonce
              then c' == c && (nonce == c.observedNonce + 1 ==> Stuck(c, powers))
              else c'.observedNonce == nonce == c.observedNonce + 1))
  }

  /** Where the loop over the listed nonces stands: `attmap` is the listing and `seen` its visited part. */
  ghost predicate TallyLoop(c: Chain, powers: Powers, t: Chain, attmap: map<nat, seq<Attestation>>, seen: seq<nat>) {
    && !c.halted && c.active && Tally(c, powers) == t && c.attestations.Keys == attmap.Keys
    && (forall q :: q in attmap && q > c.observedNonce ==> c.attestations[q] == attmap[q])
    && (c.observedNonce + 1 in seen ==> Stuck(c, powers))
  }

  lemma LoopStarts(c: Chain, powers: Powers)
    requires !c.halted && c.active
    ensures TallyLoop(c, powers, Tally(c, powers), c.attestations, [])
  {
  }

  lemma LoopVisits(c: Chain, powers: Powers, t: Chain, attmap: map<nat, seq<Attestation>>, seen: seq<nat>, nonce: nat)
    requires TallyLoop(c, powers, t, attmap, seen) && nonce in attmap
    ensures !c.halted && c.active && Tally(c, powers) == t
    ensures nonce in c.attestations && (nonce > c.observedNonce ==> c.attestations[nonce] == attmap[nonce])
  {
  }

  lemma VisitHalts(c: Chain, powers: Powers, t: Chain, nonce: nat, c': Chain)
    requires Visited(c, powers, t, nonce, c') && c'.halted
    ensures t.halted
  {
  }

  lemma LoopContinues(c: Chain, powers: Powers, t: Chain, attmap: map<nat, seq<Attestation>>, seen: seq<nat>,
        nonce: nat, c': Chain)
    requires TallyLoop(c, powers, t, attmap, seen) && Visited(c, powers, t, nonce, c') && !c'.halted
    requires forall k :: k in seen ==> k < nonce
    ensures TallyLoop(c', powers, t, attmap, seen + [nonce])
  {
    hide Tally, Stuck;
    assert c'.observedNonce + 1 in seen + [nonce] <==> c'.observedNonce + 1 in seen || c'.observedNonce + 1 == nonce;
  }

  lemma LoopEnds(c: Chain, powers: Powers, t: Chain, attmap: map<nat, seq<Attestation>>, seen: seq<nat>)
    requires TallyLoop(c, powers, t, attmap, seen) && Elements(seen) == attmap.Keys
    ensures c == t && !c.halted
  {
    hide Tally, Stuck;
    assert c.observedNonce + 1 in attmap ==> c.observedNonce + 1 in Elements(seen);
    StuckTally(c, powers);
  }

  /** Trying attestation `i`, with no hit before it, is one step of the tally. */
  lemma TryStep(c: Chain, powers: Powers, n: nat, i: nat)
    requires !c.halted && c.active && n == c.observedNonce + 1 && n in c.attestations && i < |c.attestations[n]|
    requires forall j :: 0 <= j < i ==> !Hit(powers, c.attestations[n][j])
    ensures var c' := Try(c, powers, n, i);
            && (!Hit(powers, c.attestations[n][i]) ==> c' == c)
            && (Hit(powers, c.attestations[n][i]) ==>
                  if c'.halted then Tally(c, powers).halted
                  else
                    && Tally(c', powers) == Tally(c, powers)
                    && c'.active && c'.observedNonce == n
                    && c'.attestations.Keys == c.attestations.Keys
                    && forall q :: q in c.attestations && q > n ==> c'.attestations[q] == c.attestations[q])
  {
    hide Handle, HasQuorum, Tally, FirstHit;
    if Hit(powers, c.attestations[n][i]) {
      FirstHitAt(powers, c.attestations[n], i);
      TryAdvances(c, powers, i);
      TallyUnrolls(c, powers);
    }
  }

  lemma FirstHitAt(powers: Powers, atts: seq<Attestation>, i: nat)
    requires i < |atts| && Hit(powers, atts[i]) && forall j :: 0 <= j < i ==> !Hit(powers, atts[j])
    ensures FirstHit(powers, atts) == i
  {
    hide Hit;
  }

  lemma TallyUnrolls(c: Chain, powers: Powers)
    requires !c.halted && c.active
    ensures var n := c.observedNonce + 1;
      var i := FirstHit(powers, AttestationsAt(c, n));
      i < |AttestationsAt(c, n)| ==>
        Tally(c, powers) == if Try(c, powers, n, i).halted then Try(c, powers, n, i) else Tally(Try(c, powers, n, i), powers)
  {
    hide Try, FirstHit, Hit;
  }
}
