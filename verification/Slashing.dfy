/**
Slashing for missing signatures: one pass over the due valsets, batches and logic calls of a block.

`Block` is what the staking and slashing modules report and does not change during the pass: jailing a
validator takes effect on bond status only after the block. Jailing itself is recorded at once.
 */
module Slashing {
  import opened Sorting

  type Operator = nat
  type Orchestrator = nat

  /** First block the validator had to sign, and its unbonding status. */
  datatype Info = Info(startHeight: int, unbonding: bool, unbondingHeight: nat)

  datatype Params = Params(
    signedValsetsWindow: nat,
    signedBatchesWindow: nat,
    signedLogicCallsWindow: nat,
    unbondSlashingValsetsWindow: nat)

  datatype Block = Block(
    height: nat,
    bonded: seq<Operator>,
    unbondingQueue: seq<Operator>,
    info: map<Operator, Info>,
    delegates: map<Orchestrator, Operator>)

  /** A valset, batch or logic call with the Cosmos height it was created at and its confirms. */
  datatype Item = Item(created: nat, confirms: seq<Orchestrator>)

  datatype Reason = MissedValset | MissedBatch | MissedLogicCall

  datatype Penalty = Penalty(operator: Operator, reason: Reason)

  ghost predicate ValidBlock(b: Block) {
    && (forall v :: v in b.bonded ==> v in b.info)
    && (forall v :: v in b.unbondingQueue ==> v in b.info)
  }

  /** Delegate keys are never deleted, so every confirm in the store has a validator. */
  ghost predicate KnownConfirms(b: Block, item: Item) {
    forall o :: o in item.confirms ==> o in b.delegates
  }

  /** Linear search of the confirm list for a confirm by `v`. */
  ghost predicate Confirmed(b: Block, item: Item, v: Operator) {
    exists i :: 0 <= i < |item.confirms| && item.confirms[i] in b.delegates && b.delegates[item.confirms[i]] == v
  }

  ghost predicate Missed(b: Block, item: Item, v: Operator) {
    v in b.info && b.info[v].startHeight < item.created && !Confirmed(b, item, v)
  }

  /** An unbonding validator still owes signatures for this long. */
  predicate StillOwes(b: Block, p: Params, item: Item, v: Operator) {
    v in b.info && b.info[v].unbonding && item.created < b.info[v].unbondingHeight + p.unbondSlashingValsetsWindow
  }

  ghost function BondedMissing(b: Block, item: Item): set<Operator> {
    set v | v in b.bonded && Missed(b, item, v)
  }

  ghost function UnbondingMissing(b: Block, p: Params, item: Item): set<Operator> {
    set v | v in b.unbondingQueue && Missed(b, item, v) && StillOwes(b, p, item, v)
  }

  /** Everybody who owes a signature on some of the items. */
  ghost function MissingAny(b: Block, items: seq<Item>): set<Operator> {
    set i, v | 0 <= i < |items| && v in BondedMissing(b, items[i]) :: v
  }

  /** Valsets above the last slashed nonce whose signing window is over. */
  predicate DueValset(height: nat, window: nat, last: nat, nonce: nat, created: nat) {
    nonce > last && created + window <= height
  }

  function DueValsets(b: Block, p: Params, valsets: map<nat, Item>, last: nat): set<nat> {
    if b.height <= p.signedValsetsWindow then {}
    else set n | n in valsets && DueValset(b.height, p.signedValsetsWindow, last, n, valsets[n].created)
  }

  function Filter(items: seq<Item>, f: Item -> bool): seq<Item> {
    if items == [] then []
    else if f(items[0]) then [items[0]] + Filter(items[1..], f)
    else Filter(items[1..], f)
  }

  /** Items in store order above the watermark that are past their window. */
  function Due(height: nat, window: nat, items: seq<Item>, last: nat): seq<Item> {
    if height <= window then [] else Filter(items, (i: Item) => last < i.created < height - window)
  }

  function DueBatches(b: Block, p: Params, batches: seq<Item>, last: nat): seq<Item> {
    Due(b.height, p.signedBatchesWindow, batches, last)
  }

  /** Logic calls in store order; the source ignores the window here and takes every call above the watermark. */
  function DueLogicCalls(b: Block, p: Params, calls: seq<Item>, last: nat): seq<Item> {
    DueAbove(b.height, p.signedLogicCallsWindow, calls, last)
  }

  /** Items in store order above the watermark, once the height is above the window. */
  function DueAbove(height: nat, window: nat, items: seq<Item>, last: nat): seq<Item> {
    if height <= window then [] else Filter(items, (i: Item) => last < i.created)
  }

  predicate NonDecreasing(items: seq<Item>) {
    forall i, j :: 0 <= i < j < |items| ==> items[i].created <= items[j].created
  }

  function LastCreated(items: seq<Item>, last: nat): nat {
    if items == [] then last else items[|items| - 1].created
  }

  // ---------------------------------------------------------------------------------------------
  // One penalty each

  ghost predicate EachOnce(ps: seq<Penalty>) {
    forall i, j :: 0 <= i < j < |ps| ==> ps[i].operator != ps[j].operator
  }

  ghost function Punished(ps: seq<Penalty>): set<Operator> {
    set i | 0 <= i < |ps| :: ps[i].operator
  }

  /** The penalties added for `missing`: one for each operator that was not jailed yet, none for the others. */
  ghost predicate Added(jailed: set<Operator>, missing: set<Operator>, reason: Reason, added: seq<Penalty>) {
    && EachOnce(added)
    && Punished(added) == missing - jailed
    && forall i :: 0 <= i < |added| ==> added[i].reason == reason
  }

  lemma AddedComposes(jailed: set<Operator>, a: set<Operator>, b: set<Operator>, reason: Reason, x: seq<Penalty>,
        y: seq<Penalty>)
    requires Added(jailed, a, reason, x) && Added(jailed + a, b, reason, y)
    ensures Added(jailed, a + b, reason, x + y)
  {
    PunishedJoin(x, y);
  }

  ghost function Owing(b: Block, p: Params, item: Item): set<Operator> {
    BondedMissing(b, item) + UnbondingMissing(b, p, item)
  }

  /** Everybody who owes a signature on some of these valsets. */
  ghost function OwingOn(b: Block, p: Params, valsets: map<nat, Item>, ns: set<nat>): set<Operator> {
    set n, v | n in ns && n in valsets && v in Owing(b, p, valsets[n]) :: v
  }

  ghost function NegligentOnValsets(b: Block, p: Params, valsets: map<nat, Item>, last: nat): set<Operator> {
    OwingOn(b, p, valsets, DueValsets(b, p, valsets, last))
  }

  /** The watermark moves to the largest due nonce and stays put when nothing is due. */
  ghost predicate SlashedUpTo(due: set<nat>, before: nat, after: nat) {
    && (due == {} ==> after == before)
    && (due != {} ==> after in due && forall n :: n in due ==> n <= after)
  }

  lemma OwingStep(b: Block, p: Params, valsets: map<nat, Item>, ns: set<nat>, n: nat)
    requires n in valsets
    ensures OwingOn(b, p, valsets, ns + {n})
         == OwingOn(b, p, valsets, ns) + Owing(b, p, valsets[n])
  {
    hide Owing;
    forall v | v in OwingOn(b, p, valsets, ns) + Owing(b, p, valsets[n])
      ensures v in OwingOn(b, p, valsets, ns + {n})
    {
      if v in OwingOn(b, p, valsets, ns) {
        var m :| m in ns && m in valsets && v in Owing(b, p, valsets[m]);
        assert m in ns + {n};
      } else {
        assert n in ns + {n};
      }
    }
  }

  lemma NobodyOwes(b: Block, p: Params, valsets: map<nat, Item>)
    ensures OwingOn(b, p, valsets, {}) == {}
  {
  }

  lemma NobodyMissing(b: Block)
    ensures MissingAny(b, []) == {}
  {
  }

  lemma NothingAdded(jailed: set<Operator>, reason: Reason)
    ensures Added(jailed, {}, reason, [])
  {
    assert Punished([]) == {};
  }

  lemma MissingAnyStep(b: Block, items: seq<Item>, i: nat)
    requires i < |items|
    ensures MissingAny(b, items[..i + 1]) == MissingAny(b, items[..i]) + BondedMissing(b, items[i])
  {
    forall v | v in MissingAny(b, items[..i]) + BondedMissing(b, items[i])
      ensures v in MissingAny(b, items[..i + 1])
    {
      if v in MissingAny(b, items[..i]) {
        var k :| 0 <= k < i && v in BondedMissing(b, items[..i][k]);
        assert v in BondedMissing(b, items[..i + 1][k]);
      } else {
        assert v in BondedMissing(b, items[..i + 1][i]);
      }
    }
    forall v | v in MissingAny(b, items[..i + 1])
      ensures v in MissingAny(b, items[..i]) + BondedMissing(b, items[i])
    {
      var k :| 0 <= k < i + 1 && v in BondedMissing(b, items[..i + 1][k]);
      assert k < i ==> v in BondedMissing(b, items[..i][k]);
    }
  }

  lemma {:induction false} FilterSnoc(items: seq<Item>, i: nat, f: Item -> bool)
    requires i < |items|
    ensures Filter(items[..i + 1], f) == Filter(items[..i], f) + (if f(items[i]) then [items[i]] else [])
  {
    if i == 0 {
      assert items[..1][1..] == [];
    } else {
      FilterSnoc(items[1..], i - 1, f);
      assert items[..i + 1][1..] == items[1..][..i] && items[..i][1..] == items[1..][..i - 1];
    }
  }

  lemma {:induction false} FilterMembers(items: seq<Item>, f: Item -> bool, x: Item)
    ensures x in Filter(items, f) <==> x in items && f(x)
  {
    if items != [] {
      FilterMembers(items[1..], f, x);
    }
  }

  /** The kept items at all their positions, in order. */
  ghost predicate Keeps(items: seq<Item>, f: Item -> bool, at: seq<nat>, kept: seq<Item>) {
    && |at| == |kept| && Ascending(at)
    && (forall i :: 0 <= i < |at| ==> at[i] < |items| && kept[i] == items[at[i]])
    && (forall k :: 0 <= k < |items| ==> (k in at <==> f(items[k])))
  }

  /** Exactly the items that meet the test, as often and in the order they are stored. */
  ghost predicate InStoreOrder(items: seq<Item>, f: Item -> bool, kept: seq<Item>) {
    exists at :: Keeps(items, f, at, kept)
  }

  lemma KeepsNone(f: Item -> bool)
    ensures Keeps([], f, [], [])
  {
  }

  lemma KeepsNext(items: seq<Item>, f: Item -> bool, at: seq<nat>, kept: seq<Item>, x: Item)
    requires Keeps(items, f, at, kept)
    ensures f(x) ==> Keeps(items + [x], f, at + [|items|], kept + [x])
    ensures !f(x) ==> Keeps(items + [x], f, at, kept)
  {
    forall k | 0 <= k < |items|
      ensures k in at + [|items|] <==> k in at
    {
    }
    assert forall k :: k in at ==> k < |items|;
    assert (at + [|items|])[|at|] == |items|;
  }

  lemma {:induction false} FilterInOrder(items: seq<Item>, f: Item -> bool, g: Item -> bool)
    requires forall i :: 0 <= i < |items| ==> (f(items[i]) <==> g(items[i]))
    ensures InStoreOrder(items, g, Filter(items, f))
  {
    hide Keeps;
    if items == [] {
      KeepsNone(g);
      assert Keeps(items, g, [], Filter(items, f));
    } else {
      var n := |items| - 1;
      var front, x := items[..n], items[n];
      FilterInOrder(front, f, g);
      FilterSnoc(items, n, f);
      assert items[..n + 1] == items && front + [x] == items;
      var at :| Keeps(front, g, at, Filter(front, f));
      KeepsNext(front, g, at, Filter(front, f), x);
      assert Filter(front, f) + [] == Filter(front, f);
    }
  }

  /** Whoever owed something and was free gets one penalty, for the first kind it owes. */
  ghost predicate OnePenaltyEach(jailed: set<Operator>, onValsets: set<Operator>, onBatches: set<Operator>,
        onCalls: set<Operator>, ps: seq<Penalty>) {
    && EachOnce(ps)
    && Punished(ps) == onValsets + onBatches + onCalls - jailed
    && forall i :: 0 <= i < |ps| ==>
         ps[i].reason == if ps[i].operator in onValsets then MissedValset
                         else if ps[i].operator in onBatches then MissedBatch
                         else MissedLogicCall
  }

  lemma PunishedJoin(x: seq<Penalty>, y: seq<Penalty>)
    ensures Punished(x + y) == Punished(x) + Punished(y)
    ensures EachOnce(x) && EachOnce(y) && Punished(x) !! Punished(y) ==> EachOnce(x + y)
  {
    forall i | 0 <= i < |x|
      ensures x[i].operator in Punished(x) && x[i].operator in Punished(x + y)
    {
      assert (x + y)[i] == x[i];
    }
    forall i | 0 <= i < |y|
      ensures y[i].operator in Punished(y) && y[i].operator in Punished(x + y)
    {
      assert (x + y)[|x| + i] == y[i];
    }
  }

  lemma OnePenaltyEachHolds(jailed: set<Operator>, onValsets: set<Operator>, onBatches: set<Operator>,
        onCalls: set<Operator>,
      x: seq<Penalty>, y: seq<Penalty>, z: seq<Penalty>)
    requires Added(jailed, onValsets, MissedValset, x)
    requires Added(jailed + onValsets, onBatches, MissedBatch, y)
    requires Added(jailed + onValsets + onBatches, onCalls, MissedLogicCall, z)
    ensures OnePenaltyEach(jailed, onValsets, onBatches, onCalls, x + y + z)
  {
    PunishedJoin(x, y);
    PunishedJoin(x + y, z);
    forall i | 0 <= i < |x|
      ensures x[i].operator in onValsets
    {
      assert x[i].operator in Punished(x);
    }
    forall i | 0 <= i < |y|
      ensures y[i].operator in onBatches - onValsets
    {
      assert y[i].operator in Punished(y);
    }
    forall i | 0 <= i < |z|
      ensures z[i].operator in onCalls - onBatches - onValsets
    {
      assert z[i].operator in Punished(z);
    }
  }

  class SlashingKeeper {
    var block: Block
    var params: Params
    var valsets: map<nat, Item>
    var batches: seq<Item>
    var calls: seq<Item>
    var jailed: set<Operator>
    var penalties: seq<Penalty>
    var lastSlashedValsetNonce: nat
    var lastSlashedBatchBlock: nat
    var lastSlashedLogicCallBlock: nat
    var halted: bool

    ghost predicate Valid()
      reads this
    {
      && ValidBlock(block)
      && (forall n :: n in valsets ==> KnownConfirms(block, valsets[n]))
      && (forall i :: 0 <= i < |batches| ==> KnownConfirms(block, batches[i]))
      && (forall i :: 0 <= i < |calls| ==> KnownConfirms(block, calls[i]))
    }

    /** The staking module panics when asked to jail a jailed validator. */
    method SlashAndJail(v: Operator, reason: Reason)
      requires v !in jailed
      modifies this`jailed, this`penalties
      ensures jailed == old(jailed) + {v}
      ensures penalties == old(penalties) + [Penalty(v, reason)]
    {
      penalties := penalties + [Penalty(v, reason)];
      jailed := jailed + {v};
    }

    /** Confirms by validator: the map agrees with a linear search of the list. */
    method PrepConfirms(item: Item) returns (found: map<Operator, Orchestrator>)
      requires KnownConfirms(block, item)
      ensures forall v :: v in found <==> Confirmed(block, item, v)
    {
      found := map[];
      for i := 0 to |item.confirms|
        invariant forall v :: v in found <==> exists j :: 0 <= j < i && item.confirms[j] in block.delegates && block.delegates[item.confirms[j]] == v
      {
        var o := item.confirms[i];
        assert o in item.confirms;
        found := found[block.delegates[o] := o];
      }
    }

    /** Refresh, then slash and jail unless the validator is jailed already. */
    method Punish(v: Operator, reason: Reason) returns (ghost added: seq<Penalty>)
      modifies this`jailed, this`penalties
      ensures jailed == old(jailed) + {v}
      ensures penalties == old(penalties) + added && Added(old(jailed), {v}, reason, added)
    {
      added := [];
      if v !in jailed {
        SlashAndJail(v, reason);
        added := [Penalty(v, reason)];
        assert Punished(added) == {v} by {
          assert added[0].operator == v;
        }
      } else {
        assert Punished(added) == {};
      }
    }

    method SlashBonded(item: Item, reason: Reason) returns (ghost added: seq<Penalty>)
      requires ValidBlock(block) && KnownConfirms(block, item)
      modifies this`jailed, this`penalties
      ensures jailed == old(jailed) + BondedMissing(block, item)
      ensures penalties == old(penalties) + added && Added(old(jailed), BondedMissing(block, item), reason, added)
      ensures forall v :: v in jailed - old(jailed) ==> v in block.bonded
      ensures forall v :: v in block.bonded && v !in old(jailed) ==>
        (v in jailed <==> block.info[v].startHeight < item.created && forall o :: o in item.confirms ==> block.delegates[o] != v)
    {
      var found := PrepConfirms(item);
      added := [];
      ghost var missing: set<Operator> := {};
      assert Punished(added) == {};
      for i := 0 to |block.bonded|
        invariant missing == set v | v in block.bonded[..i] && Missed(block, item, v)
        invariant jailed == old(jailed) + missing
        invariant penalties == old(penalties) + added && Added(old(jailed), missing, reason, added)
      {
        var v := block.bonded[i];
        assert v in block.bonded;
        assert block.bonded[..i + 1] == block.bonded[..i] + [v];
        if block.info[v].startHeight < item.created && v !in found {
          ghost var more := Punish(v, reason);
          AddedComposes(old(jailed), missing, {v}, reason, added, more);
          added, missing := added + more, missing + {v};
        }
      }
      assert block.bonded[..|block.bonded|] == block.bonded;
    }

    method SlashUnbonding(item: Item) returns (ghost added: seq<Penalty>)
      requires ValidBlock(block) && KnownConfirms(block, item)
      modifies this`jailed, this`penalties
      ensures jailed == old(jailed) + UnbondingMissing(block, params, item)
      ensures penalties == old(penalties) + added && Added(old(jailed), UnbondingMissing(block, params, item), MissedValset, added)
      ensures forall v :: v in jailed - old(jailed) ==> v in block.unbondingQueue
      ensures forall v :: v in block.unbondingQueue && v !in old(jailed) ==>
        var i := block.info[v];
        (v in jailed <==>
          && i.startHeight < item.created && i.unbonding && item.created < i.unbondingHeight + params.unbondSlashingValsetsWindow
          && forall o :: o in item.confirms ==> block.delegates[o] != v)
    {
      var found := PrepConfirms(item);
      added := [];
      ghost var missing: set<Operator> := {};
      assert Punished(added) == {};
      for i := 0 to |block.unbondingQueue|
        invariant missing == set v | v in block.unbondingQueue[..i] && Missed(block, item, v) && StillOwes(block, params, item, v)
        invariant jailed == old(jailed) + missing
        invariant penalties == old(penalties) + added && Added(old(jailed), missing, MissedValset, added)
      {
        var v := block.unbondingQueue[i];
        assert v in block.unbondingQueue;
        assert block.unbondingQueue[..i + 1] == block.unbondingQueue[..i] + [v];
        if block.info[v].startHeight < item.created && StillOwes(block, params, item, v) && v !in found {
          ghost var more := Punish(v, MissedValset);
          AddedComposes(old(jailed), missing, {v}, MissedValset, added, more);
          added, missing := added + more, missing + {v};
        }
      }
      assert block.unbondingQueue[..|block.unbondingQueue|] == block.unbondingQueue;
    }

    /** Walks the stored valsets in nonce order and keeps those that are due. */
    method UnslashedValsets() returns (out: seq<nat>)
      requires block.height > params.signedValsetsWindow
      ensures Ascending(out) && Elements(out) == DueValsets(block, params, valsets, lastSlashedValsetNonce)
      ensures forall n :: n in out <==>
        n in valsets && n > lastSlashedValsetNonce && valsets[n].created <= block.height - params.signedValsetsWindow
    {
      var keys := SortKeys(valsets.Keys);
      out := [];
      ghost var due := DueValsets(block, params, valsets, lastSlashedValsetNonce);
      for i := 0 to |keys|
        invariant Ascending(out) && Elements(out) == Elements(keys[..i]) * due
        invariant forall k :: 0 <= k < |out| ==> out[k] in keys[..i]
      {
        var n := keys[i];
        assert n in Elements(keys);
        assert keys[..i + 1] == keys[..i] + [n];
        if DueValset(block.height, params.signedValsetsWindow, lastSlashedValsetNonce, n, valsets[n].created) {
          assert forall k :: 0 <= k < |out| ==> out[k] < n;
          assert Elements(out + [n]) == Elements(out) + {n};
          out := out + [n];
        }
        assert Elements(keys[..i + 1]) == Elements(keys[..i]) + {n};
      }
      assert keys[..|keys|] == keys;
      assert forall n :: n in out <==> n in Elements(out);
    }

    method SlashValset(item: Item) returns (ghost added: seq<Penalty>)
      requires ValidBlock(block) && KnownConfirms(block, item)
      modifies this`jailed, this`penalties
      ensures jailed == old(jailed) + Owing(block, params, item)
      ensures penalties == old(penalties) + added && Added(old(jailed), Owing(block, params, item), MissedValset, added)
    {
      hide Added, BondedMissing, UnbondingMissing;
      ghost var bonded := SlashBonded(item, MissedValset);
      ghost var unbonding := SlashUnbonding(item);
      AddedComposes(old(jailed), BondedMissing(block, item), UnbondingMissing(block, params, item), MissedValset, bonded, unbonding);
      added := bonded + unbonding;
    }

    method SlashValsets(due: seq<nat>) returns (ghost added: seq<Penalty>)
      requires Valid() && Ascending(due)
      requires forall i :: 0 <= i < |due| ==> due[i] in valsets && lastSlashedValsetNonce < due[i]
      modifies this`jailed, this`penalties, this`lastSlashedValsetNonce
      ensures jailed == old(jailed) + OwingOn(block, params, valsets, Elements(due))
      ensures penalties == old(penalties) + added
      ensures Added(old(jailed), OwingOn(block, params, valsets, Elements(due)), MissedValset, added)
      ensures lastSlashedValsetNonce == if due == [] then old(lastSlashedValsetNonce) else due[|due| - 1]
    {
      hide Added, Owing, KnownConfirms, ValidBlock, OwingOn;
      added := [];
      NothingAdded(jailed, MissedValset);
      ghost var owing: set<Operator> := {};
      NobodyOwes(block, params, valsets);
      assert Elements(due[..0]) == {};
      for i := 0 to |due|
        invariant owing == OwingOn(block, params, valsets, Elements(due[..i]))
        invariant jailed == old(jailed) + owing
        invariant penalties == old(penalties) + added && Added(old(jailed), owing, MissedValset, added)
        invariant lastSlashedValsetNonce == if i == 0 then old(lastSlashedValsetNonce) else due[i - 1]
      {
        var item := valsets[due[i]];
        OwingStep(block, params, valsets, Elements(due[..i]), due[i]);
        assert Elements(due[..i + 1]) == Elements(due[..i]) + {due[i]};
        ghost var more := SlashValset(item);
        AddedComposes(old(jailed), owing, Owing(block, params, item), MissedValset, added, more);
        added, owing := added + more, owing + Owing(block, params, item);
        lastSlashedValsetNonce := due[i];
      }
      assert due[..|due|] == due;
    }

    method ValsetSlashing() returns (ghost added: seq<Penalty>)
      requires Valid()
      modifies this`jailed, this`penalties, this`lastSlashedValsetNonce
      ensures jailed == old(jailed) + NegligentOnValsets(block, params, valsets, old(lastSlashedValsetNonce))
      ensures penalties == old(penalties) + added
      ensures Added(old(jailed), NegligentOnValsets(block, params, valsets, old(lastSlashedValsetNonce)), MissedValset, added)
      ensures SlashedUpTo(DueValsets(block, params, valsets, old(lastSlashedValsetNonce)), old(lastSlashedValsetNonce), lastSlashedValsetNonce)
      ensures block.height <= params.signedValsetsWindow ==>
        jailed == old(jailed) && penalties == old(penalties) && lastSlashedValsetNonce == old(lastSlashedValsetNonce)
    {
      hide Added, OwingOn, KnownConfirms, ValidBlock;
      added := [];
      if block.height <= params.signedValsetsWindow {
        NothingAdded(jailed, MissedValset);
        NobodyOwes(block, params, valsets);
        return;
      }
      var due := UnslashedValsets();
      forall i | 0 <= i < |due|
        ensures due[i] in DueValsets(block, params, valsets, lastSlashedValsetNonce)
      {
        assert due[i] in Elements(due);
      }
      added := SlashValsets(due);
      if due != [] {
        assert due[|due| - 1] in Elements(due);
      }
    }

    /** Batches in store order that are above the watermark and past their window. */
    method UnslashedBatches() returns (out: seq<Item>)
      requires block.height > params.signedBatchesWindow
      ensures out == DueBatches(block, params, batches, lastSlashedBatchBlock)
      ensures var last, maxHeight := lastSlashedBatchBlock, block.height - params.signedBatchesWindow;
        InStoreOrder(batches, (i: Item) => last < i.created < maxHeight, out)
    {
      out := [];
      var last, maxHeight := lastSlashedBatchBlock, block.height - params.signedBatchesWindow;
      ghost var f := (i: Item) => last < i.created < maxHeight;
      for i := 0 to |batches|
        invariant out == Filter(batches[..i], f)
      {
        FilterSnoc(batches, i, f);
        if batches[i].created > last && batches[i].created < maxHeight {
          out := out + [batches[i]];
        }
      }
      assert batches[..|batches|] == batches;
      FilterInOrder(batches, f, (i: Item) => last < i.created < maxHeight);
    }

    /** Logic calls in store order that are above the watermark. */
    method UnslashedLogicCalls() returns (out: seq<Item>)
      requires block.height > params.signedLogicCallsWindow
      ensures out == DueLogicCalls(block, params, calls, lastSlashedLogicCallBlock)
      ensures var last := lastSlashedLogicCallBlock; InStoreOrder(calls, (i: Item) => last < i.created, out)
    {
      out := [];
      var last := lastSlashedLogicCallBlock;
      ghost var f := (i: Item) => last < i.created;
      for i := 0 to |calls|
        invariant out == Filter(calls[..i], f)
      {
        FilterSnoc(calls, i, f);
        if calls[i].created > last {
          out := out + [calls[i]];
        }
      }
      assert calls[..|calls|] == calls;
      FilterInOrder(calls, f, (i: Item) => last < i.created);
    }

    /** The slashing loop over due items; panics when the watermark would move down. */
    method SlashInOrder(items: seq<Item>, reason: Reason, last: nat) returns (ok: bool, mark: nat,
          ghost added: seq<Penalty>)
      requires ValidBlock(block) && forall i :: 0 <= i < |items| ==> KnownConfirms(block, items[i]) && last < items[i].created
      modifies this`jailed, this`penalties
      ensures ok <==> NonDecreasing(items)
      ensures ok ==> jailed == old(jailed) + MissingAny(block, items)
      ensures ok ==> penalties == old(penalties) + added && Added(old(jailed), MissingAny(block, items), reason, added)
      ensures ok ==> mark == LastCreated(items, last)
    {
      hide Added, BondedMissing, KnownConfirms, ValidBlock, MissingAny;
      ok, mark, added := true, last, [];
      NothingAdded(jailed, reason);
      NobodyMissing(block);
      assert items[..0] == [];
      for i := 0 to |items|
        invariant NonDecreasing(items[..i]) && mark == LastCreated(items[..i], last)
        invariant jailed == old(jailed) + MissingAny(block, items[..i])
        invariant penalties == old(penalties) + added && Added(old(jailed), MissingAny(block, items[..i]), reason, added)
      {
        MissingAnyStep(block, items, i);
        ghost var more := SlashBonded(items[i], reason);
        AddedComposes(old(jailed), MissingAny(block, items[..i]), BondedMissing(block, items[i]), reason, added, more);
        added := added + more;
        if mark > items[i].created {
          ok := false;
          return;
        }
        mark := items[i].created;
      }
      assert items[..|items|] == items;
    }

    method BatchSlashing() returns (ghost added: seq<Penalty>)
      requires Valid() && !halted
      modifies this`jailed, this`penalties, this`lastSlashedBatchBlock, this`halted
      ensures var due := DueBatches(block, params, batches, old(lastSlashedBatchBlock));
        && (halted <==> !NonDecreasing(due))
        && (!halted ==>
              && jailed == old(jailed) + MissingAny(block, due)
              && penalties == old(penalties) + added && Added(old(jailed), MissingAny(block, due), MissedBatch, added)
              && lastSlashedBatchBlock == LastCreated(due, old(lastSlashedBatchBlock)))
      ensures block.height <= params.signedBatchesWindow ==>
        !halted && jailed == old(jailed) && penalties == old(penalties) && lastSlashedBatchBlock == old(lastSlashedBatchBlock)
    {
      hide Added, KnownConfirms, ValidBlock, MissingAny, InStoreOrder;
      added := [];
      if block.height <= params.signedBatchesWindow {
        NothingAdded(jailed, MissedBatch);
        NobodyMissing(block);
        return;
      }
      var due := UnslashedBatches();
      ghost var max := block.height - params.signedBatchesWindow;
      ghost var last := lastSlashedBatchBlock;
      forall i | 0 <= i < |due|
        ensures due[i] in batches && lastSlashedBatchBlock < due[i].created
      {
        FilterMembers(batches, (x: Item) => last < x.created < max, due[i]);
      }
      var ok, mark;
      ok, mark, added := SlashInOrder(due, MissedBatch, lastSlashedBatchBlock);
      halted, lastSlashedBatchBlock := !ok, mark;
    }

    method LogicCallSlashing() returns (ghost added: seq<Penalty>)
      requires Valid() && !halted
      modifies this`jailed, this`penalties, this`lastSlashedLogicCallBlock, this`halted
      ensures var due := DueLogicCalls(block, params, calls, old(lastSlashedLogicCallBlock));
        && (halted <==> !NonDecreasing(due))
        && (!halted ==>
              && jailed == old(jailed) + MissingAny(block, due)
              && penalties == old(penalties) + added && Added(old(jailed), MissingAny(block, due), MissedLogicCall, added)
              && lastSlashedLogicCallBlock == LastCreated(due, old(lastSlashedLogicCallBlock)))
      ensures block.height <= params.signedLogicCallsWindow ==>
        !halted && jailed == old(jailed) && penalties == old(penalties) && lastSlashedLogicCallBlock == old(lastSlashedLogicCallBlock)
    {
      hide Added, KnownConfirms, ValidBlock, MissingAny, InStoreOrder;
      added := [];
      if block.height <= params.signedLogicCallsWindow {
        NothingAdded(jailed, MissedLogicCall);
        NobodyMissing(block);
        return;
      }
      var due := UnslashedLogicCalls();
      ghost var last := lastSlashedLogicCallBlock;
      forall i | 0 <= i < |due|
        ensures due[i] in calls && lastSlashedLogicCallBlock < due[i].created
      {
        FilterMembers(calls, (x: Item) => last < x.created, due[i]);
      }
      var ok, mark;
      ok, mark, added := SlashInOrder(due, MissedLogicCall, lastSlashedLogicCallBlock);
      halted, lastSlashedLogicCallBlock := !ok, mark;
    }

    /**
    The whole pass. It halts exactly when a watermark would move down. Otherwise every validator that owes
    a signature ends up jailed and nobody else does, and each one not jailed before gets exactly one penalty,
    for the first kind of signature it owes.
     */
    method Slash() returns (ghost added: seq<Penalty>)
      requires Valid() && !halted
      modifies this`jailed, this`penalties, this`lastSlashedValsetNonce, this`lastSlashedBatchBlock, this`lastSlashedLogicCallBlock, this`halted
      ensures halted <==>
        || !NonDecreasing(DueBatches(block, params, batches, old(lastSlashedBatchBlock)))
        || !NonDecreasing(DueLogicCalls(block, params, calls, old(lastSlashedLogicCallBlock)))
      ensures !halted ==>
        var onValsets := NegligentOnValsets(block, params, valsets, old(lastSlashedValsetNonce));
        var onBatches := MissingAny(block, DueBatches(block, params, batches, old(lastSlashedBatchBlock)));
        var onCalls := MissingAny(block, DueLogicCalls(block, params, calls, old(lastSlashedLogicCallBlock)));
        && jailed == old(jailed) + onValsets + onBatches + onCalls
        && penalties == old(penalties) + added
        && OnePenaltyEach(old(jailed), onValsets, onBatches, onCalls, added)
        && SlashedUpTo(DueValsets(block, params, valsets, old(lastSlashedValsetNonce)), old(lastSlashedValsetNonce), lastSlashedValsetNonce)
        && lastSlashedBatchBlock == LastCreated(DueBatches(block, params, batches, old(lastSlashedBatchBlock)), old(lastSlashedBatchBlock))
        && lastSlashedLogicCallBlock == LastCreated(DueLogicCalls(block, params, calls, old(lastSlashedLogicCallBlock)), old(lastSlashedLogicCallBlock))
    {
      hide Added, ValidBlock, KnownConfirms, MissingAny, NegligentOnValsets, DueBatches, DueLogicCalls, DueValsets, OnePenaltyEach;
      ghost var forValsets := ValsetSlashing();
      ghost var forBatches := BatchSlashing();
      added := [];
      if halted {
        return;
      }
      ghost var forCalls := LogicCallSlashing();
      if halted {
        return;
      }
      OnePenaltyEachHolds(old(jailed),
        NegligentOnValsets(block, params, valsets, old(lastSlashedValsetNonce)),
        MissingAny(block, DueBatches(block, params, batches, old(lastSlashedBatchBlock))),
        MissingAny(block, DueLogicCalls(block, params, calls, old(lastSlashedLogicCallBlock))),
        forValsets, forBatches, forCalls);
      added := forValsets + forBatches + forCalls;
    }
  }

  // ---------------------------------------------------------------------------------------------
  // Batch watermarks over whole runs

  /** The signing window and the stored batches of one block. */
  datatype Tick = Tick(window: nat, stored: seq<Item>)

  ghost function Heights(items: seq<Item>): set<nat> {
    set i | 0 <= i < |items| :: items[i].created
  }

  /** Batches appear in the block that creates them and may vanish at any time; the window never shrinks. */
  ghost predicate IsRun(h: nat, before: Tick, ticks: seq<Tick>)
    decreases |ticks|
  {
    ticks != [] ==>
      && Heights(ticks[0].stored) <= Heights(before.stored) + {h}
      && before.window <= ticks[0].window
      && IsRun(h + 1, ticks[0], ticks[1..])
  }

  /** No block of the run moves the watermark down, and each judges only the batches whose window ended right there. */
  ghost predicate NeverHalts(h: nat, last: nat, ticks: seq<Tick>)
    decreases |ticks|
  {
    ticks != [] ==>
      var due := Due(h, ticks[0].window, ticks[0].stored, last);
      && NonDecreasing(due)
      && (forall i :: 0 <= i < |due| ==> due[i].created + ticks[0].window + 1 == h)
      && NeverHalts(h + 1, LastCreated(due, last), ticks[1..])
  }

  ghost predicate CaughtUp(h: nat, t: Tick, last: nat) {
    forall i :: 0 <= i < |t.stored| ==> t.stored[i].created + t.window < h ==> t.stored[i].created <= last
  }

  lemma DueMember(h: nat, window: nat, items: seq<Item>, last: nat, x: Item)
    ensures x in Due(h, window, items, last) <==> x in items && last < x.created && x.created + window < h
  {
    if window < h {
      FilterMembers(items, (i: Item) => last < i.created < h - window, x);
    }
  }

  lemma OneTick(h: nat, before: Tick, t: Tick, last: nat)
    requires h > 0 && CaughtUp(h - 1, before, last)
    requires Heights(t.stored) <= Heights(before.stored) + {h} && before.window <= t.window
    ensures var due := Due(h, t.window, t.stored, last);
      && (forall i :: 0 <= i < |due| ==> due[i].created + t.window + 1 == h)
      && CaughtUp(h, t, LastCreated(due, last))
  {
    var due := Due(h, t.window, t.stored, last);
    forall i | 0 <= i < |due|
      ensures due[i].created + t.window + 1 == h
    {
      DueMember(h, t.window, t.stored, last, due[i]);
      assert due[i].created in Heights(t.stored);
    }
    forall i | 0 <= i < |t.stored| && t.stored[i].created + t.window < h
      ensures t.stored[i].created <= LastCreated(due, last)
    {
      DueMember(h, t.window, t.stored, last, t.stored[i]);
      if last < t.stored[i].created {
        var j :| 0 <= j < |due| && due[j] == t.stored[i];
      }
    }
  }

  lemma {:induction false} BatchSlashingNeverHalts(h: nat, before: Tick, last: nat, ticks: seq<Tick>)
    requires h > 0 && CaughtUp(h - 1, before, last) && IsRun(h, before, ticks)
    ensures NeverHalts(h, last, ticks)
    decreases |ticks|
  {
    if ticks != [] {
      OneTick(h, before, ticks[0], last);
      BatchSlashingNeverHalts(h + 1, ticks[0], LastCreated(Due(h, ticks[0].window, ticks[0].stored, last), last), ticks[1..]);
    }
  }

  lemma DueNow(h: nat, before: Tick, t: Tick, last: nat, x: Item)
    requires h > 0 && CaughtUp(h - 1, before, last) && last + t.window + 1 < h
    requires Heights(t.stored) <= Heights(before.stored) + {h} && before.window == t.window
    requires x in t.stored
    ensures x in Due(h, t.window, t.stored, last) <==> x.created + t.window + 1 == h
  {
    OneTick(h, before, t, last);
    DueMember(h, t.window, t.stored, last, x);
  }

  /** In every block of the run exactly the stored batches whose window has just ended are judged. */
  ghost predicate JudgesOnce(h: nat, last: nat, ticks: seq<Tick>)
    decreases |ticks|
  {
    ticks != [] ==>
      var t := ticks[0];
      && (forall x :: x in t.stored ==> (x in Due(h, t.window, t.stored, last) <==> x.created + t.window + 1 == h))
      && JudgesOnce(h + 1, LastCreated(Due(h, t.window, t.stored, last), last), ticks[1..])
  }

  /** With an unchanged window every batch is judged in the block right after its window, and in no other. */
  lemma {:induction false} JudgedOnce(h: nat, before: Tick, last: nat, ticks: seq<Tick>)
    requires h > 0 && CaughtUp(h - 1, before, last) && IsRun(h, before, ticks) && last + before.window + 1 < h
    requires forall i :: 0 <= i < |ticks| ==> ticks[i].window == before.window
    ensures JudgesOnce(h, last, ticks)
    decreases |ticks|
  {
    if ticks != [] {
      var t := ticks[0];
      OneTick(h, before, t, last);
      forall x | x in t.stored
        ensures x in Due(h, t.window, t.stored, last) <==> x.created + t.window + 1 == h
      {
        DueNow(h, before, t, last, x);
      }
      JudgedOnce(h + 1, t, LastCreated(Due(h, t.window, t.stored, last), last), ticks[1..]);
    }
  }

  /** A shrinking window makes batches of two heights due together; the store lists the newer one first. */
  lemma ShrinkingWindowHalts()
    ensures var stored := [Item(12, []), Item(10, [])];
      && CaughtUp(100, Tick(100, stored), 0)
      && !NonDecreasing(Due(101, 5, stored, 0))
  {
    var stored := [Item(12, []), Item(10, [])];
    var f := (i: Item) => 0 < i.created < 96;
    assert stored[1..] == [stored[1]] && stored[1..][1..] == [];
    assert Filter(stored[1..], f) == [stored[1]];
    assert Due(101, 5, stored, 0) == stored;
  }

  // ---------------------------------------------------------------------------------------------
  // Logic call watermarks over whole runs

  /** Every stored call is at or below the watermark. */
  ghost predicate AllJudged(calls: seq<Item>, last: nat) {
    forall c :: c in Heights(calls) ==> c <= last
  }

  /** A block above the window that does not halt leaves nothing unjudged. */
  lemma CallBlockCatchesUp(h: nat, window: nat, calls: seq<Item>, last: nat)
    requires h > window && NonDecreasing(DueAbove(h, window, calls, last))
    ensures AllJudged(calls, LastCreated(DueAbove(h, window, calls, last), last))
  {
    var due := DueAbove(h, window, calls, last);
    if due != [] {
      FilterMembers(calls, (x: Item) => last < x.created, due[|due| - 1]);
    }
    forall i | 0 <= i < |calls|
      ensures calls[i].created <= LastCreated(due, last)
    {
      FilterMembers(calls, (x: Item) => last < x.created, calls[i]);
      if calls[i] in due {
        var j :| 0 <= j < |due| && due[j] == calls[i];
        assert j < |due| - 1 ==> due[j].created <= due[|due| - 1].created;
      }
    }
  }

  /** Once caught up, a logic call is judged in the very block that creates it, whatever the window is. */
  lemma CallDueNow(h: nat, window: nat, before: seq<Item>, calls: seq<Item>, last: nat)
    requires h > window && last < h && AllJudged(before, last) && Heights(calls) <= Heights(before) + {h}
    ensures var due := DueAbove(h, window, calls, last);
      && NonDecreasing(due)
      && (forall i :: 0 <= i < |calls| ==> (calls[i] in due <==> calls[i].created == h))
      && last <= LastCreated(due, last) <= h
  {
    var due := DueAbove(h, window, calls, last);
    forall i | 0 <= i < |due|
      ensures due[i].created == h
    {
      FilterMembers(calls, (x: Item) => last < x.created, due[i]);
      assert due[i].created in Heights(calls);
    }
    forall i | 0 <= i < |calls|
      ensures calls[i] in due <==> calls[i].created == h
    {
      FilterMembers(calls, (x: Item) => last < x.created, calls[i]);
      assert calls[i].created in Heights(calls);
    }
  }

  ghost predicate CallsNeverHalt(h: nat, last: nat, ticks: seq<Tick>)
    decreases |ticks|
  {
    ticks != [] ==>
      var due := DueAbove(h, ticks[0].window, ticks[0].stored, last);
      NonDecreasing(due) && CallsNeverHalt(h + 1, LastCreated(due, last), ticks[1..])
  }

  /** In every block of the run exactly the calls created in it are judged. */
  ghost predicate JudgesAtOnce(h: nat, last: nat, ticks: seq<Tick>)
    decreases |ticks|
  {
    ticks != [] ==>
      var t := ticks[0];
      var due := DueAbove(h, t.window, t.stored, last);
      && (forall i :: 0 <= i < |t.stored| ==> (t.stored[i] in due <==> t.stored[i].created == h))
      && JudgesAtOnce(h + 1, LastCreated(due, last), ticks[1..])
  }

  ghost predicate ConstantWindow(ticks: seq<Tick>, window: nat) {
    forall i :: 0 <= i < |ticks| ==> ticks[i].window == window
  }

  /** From a block above the window on, once caught up: no block halts and every call is judged in the block that creates it. */
  lemma {:induction false} LogicCallsJudgedAtOnce(h: nat, before: Tick, last: nat, ticks: seq<Tick>)
    requires h > before.window && last < h && AllJudged(before.stored, last)
    requires IsRun(h, before, ticks) && ConstantWindow(ticks, before.window)
    ensures CallsNeverHalt(h, last, ticks) && JudgesAtOnce(h, last, ticks)
    decreases |ticks|
  {
    if ticks != [] {
      var t := ticks[0];
      CallDueNow(h, t.window, before.stored, t.stored, last);
      CallBlockCatchesUp(h, t.window, t.stored, last);
      LogicCallsJudgedAtOnce(h + 1, t, LastCreated(DueAbove(h, t.window, t.stored, last), last), ticks[1..]);
    }
  }

  /** The calls the first block above the window finds above the watermark; all that came before are due in it at once. */
  ghost predicate FirstDueInOrder(h: nat, window: nat, last: nat, ticks: seq<Tick>)
    requires h <= window + 1
  {
    var m := window + 1 - h;
    m < |ticks| ==> NonDecreasing(DueAbove(window + 1, window, ticks[m].stored, last))
  }

  ghost predicate UpTo(items: seq<Item>, h: nat) {
    forall c :: c in Heights(items) ==> c <= h
  }

  lemma LastCreatedUpTo(h: nat, window: nat, calls: seq<Item>, last: nat)
    requires UpTo(calls, h) && last <= h
    ensures LastCreated(DueAbove(h, window, calls, last), last) <= h
  {
    var due := DueAbove(h, window, calls, last);
    if due != [] {
      FilterMembers(calls, (x: Item) => last < x.created, due[|due| - 1]);
      assert due[|due| - 1].created in Heights(calls);
    }
  }

  /**
  With a constant window logic call slashing never halts in a run that starts within the window if and only if the first
  block above the window finds the calls above the watermark in order of creation.
   */
  lemma {:induction false} CallSlashingNeverHaltsIff(h: nat, before: Tick, last: nat, ticks: seq<Tick>)
    requires 0 < h <= before.window + 1 && last < h && UpTo(before.stored, h - 1)
    requires IsRun(h, before, ticks) && ConstantWindow(ticks, before.window)
    ensures CallsNeverHalt(h, last, ticks) <==> FirstDueInOrder(h, before.window, last, ticks)
    decreases |ticks|
  {
    if ticks != [] {
      var t := ticks[0];
      var due := DueAbove(h, t.window, t.stored, last);
      assert UpTo(t.stored, h);
      if h <= t.window {
        assert ConstantWindow(ticks[1..], t.window);
        CallSlashingNeverHaltsIff(h + 1, t, last, ticks[1..]);
        assert t.window + 1 - h < |ticks| ==> ticks[1..][t.window - h] == ticks[t.window + 1 - h];
      } else if NonDecreasing(due) {
        CallBlockCatchesUp(h, t.window, t.stored, last);
        LastCreatedUpTo(h, t.window, t.stored, last);
        LogicCallsJudgedAtOnce(h + 1, t, LastCreated(due, last), ticks[1..]);
      }
    }
  }

  /** Calls created at 12 and 10, in that store order: nothing is due up to height 100, and height 101 halts. */
  lemma FirstCallBlockHalts()
    ensures var t := Tick(100, [Item(12, []), Item(10, [])]);
      && IsRun(100, t, [t, t]) && UpTo(t.stored, 99)
      && DueAbove(100, 100, t.stored, 0) == [] && !CallsNeverHalt(100, 0, [t, t])
  {
    var t := Tick(100, [Item(12, []), Item(10, [])]);
    var f := (i: Item) => 0 < i.created;
    assert t.stored[1..] == [t.stored[1]] && t.stored[1..][1..] == [];
    assert Filter(t.stored[1..], f) == [t.stored[1]];
    assert DueAbove(101, 100, t.stored, 0) == t.stored;
    assert [t, t][1..] == [t] && [t][1..] == [];
    assert !CallsNeverHalt(101, 0, [t]);
    assert IsRun(101, t, [t]);
  }
}
