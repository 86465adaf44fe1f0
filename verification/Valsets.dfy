/**
The life of validator sets across both chains: created in EndBlocker, judged by slashing, accepted by the
contract, observed back, pruned.
 */
module Valsets {
  import opened BridgePower
  import opened Options
  import opened Sums
  import Slashing

  /** What the relayer of a valset earns on Ethereum; no reward is zero of the zero token. */
  datatype Reward = Reward(token: EthAddress, amount: nat)

  /** How the chain classifies a reward token when an update is handled. */
  datatype Origin = FromCosmos | FromEthereum | Unclassified

  /** What the reward parameter of the chain resolves to when a valset is made. */
  datatype RewardLookup = UnknownDenom | Known(reward: Reward)

  datatype Valset = Valset(height: nat, members: Members, reward: Reward)

  /** A valset update event of the contract. The one with nonce 0 is emitted at deployment. */
  datatype Update = Update(nonce: nat, members: Members, reward: Reward)

  /** A bonded validator and its Ethereum key, if it has set one. */
  datatype Bonded = Bonded(power: nat, key: Option<EthAddress>)

  /** What the bonded validators make: nothing, an error, or a set. */
  datatype Current = NoValidators | Unusable | Set(members: Members, reward: Reward)

  /**
  What EndBlocker finds in this block. It observes one update for each origin listed, which is what the
  classification of that update's reward token yields by then.
   */
  datatype BlockInput = BlockInput(window: nat, unbonding: bool, current: Current, origins: seq<Origin>)

  const ZERO_ADDRESS: EthAddress := 0

  const NO_REWARD: Reward := Reward(ZERO_ADDRESS, 0)

  predicate Pays(r: Reward) {
    r.amount > 0 && r.token != ZERO_ADDRESS
  }

  /**
  `created` remembers every valset ever stored, `judged` every nonce slashing has looked at and `dropped` the
  positions of updates whose handler failed; all three are history only. `updates` is the contract's log and
  `applied` how much of it has been observed.
   */
  datatype State = State(
    height: nat,
    valsets: map<nat, Valset>,
    latest: nat,
    observed: Option<nat>,
    lastSlashed: nat,
    created: map<nat, Valset>,
    judged: set<nat>,
    updates: seq<Update>,
    applied: nat,
    dropped: set<nat>,
    halted: bool)

  // ---------------------------------------------------------------------------------------------
  // EndBlocker, piece by piece

  function DueNonces(s: State, window: nat): set<nat> {
    if s.height <= window then {}
    else set n | n in s.valsets && Slashing.DueValset(s.height, window, s.lastSlashed, n, s.valsets[n].height)
  }

  /** Slashing judges what is due, in nonce order, and moves the watermark to the last one. */
  ghost predicate Judge(s: State, window: nat, s': State) {
    && Slashing.SlashedUpTo(DueNonces(s, window), s.lastSlashed, s'.lastSlashed)
    && s' == s.(lastSlashed := s'.lastSlashed, judged := s.judged + DueNonces(s, window))
  }

  /**
  handleValsetUpdated. An unknown valset is an error and a differing one a panic. A reward token that does
  not classify is an error, and one from Ethereum a panic. An error undoes the handler's work; the event
  counts as observed all the same.
   */
  function ObserveOne(s: State, origin: Origin): State
    requires s.applied < |s.updates|
  {
    var u := s.updates[s.applied];
    var s1 := s.(applied := s.applied + 1);
    var failed := s1.(dropped := s.dropped + {s.applied});
    if u.nonce != 0 && u.nonce !in s.valsets then failed
    else if u.nonce != 0 && (s.valsets[u.nonce].members != u.members || s.valsets[u.nonce].reward != u.reward) then s1.(halted := true)
    else if !Pays(u.reward) || origin.FromCosmos? then s1.(observed := Some(u.nonce))
    else if origin.Unclassified? then failed
    else s1.(halted := true)
  }

  function Observe(s: State, origins: seq<Origin>): State
    decreases |origins|
  {
    if origins == [] || s.halted || s.applied >= |s.updates| then s else Observe(ObserveOne(s, origins[0]), origins[1..])
  }

  ghost predicate Stale(s: State, unbonding: bool, m: Members) {
    || s.latest !in s.valsets
    || unbonding
    || Significant(Drift(m, s.valsets[s.latest].members, m.Keys + s.valsets[s.latest].members.Keys))
  }

  function Store(s: State, m: Members, r: Reward): State {
    var n := s.latest + 1;
    if n in s.valsets then s.(halted := true)
    else
      var v := Valset(s.height, m, r);
      s.(valsets := s.valsets[n := v], created := s.created[n := v], latest := n)
  }

  ghost function Create(s: State, unbonding: bool, current: Current): State {
    match current
    case NoValidators => if s.latest in s.valsets then s else s.(halted := true)
    case Unusable => s.(halted := true)
    case Set(m, r) => if Stale(s, unbonding, m) then Store(s, m, r) else s
  }

  function Prunable(s: State, window: nat): set<nat> {
    if s.observed.None? || s.height < window then {}
    else set n | n in s.valsets && n < s.observed.value && s.valsets[n].height < s.height - window
  }

  function Prune(s: State, window: nat): State {
    s.(valsets := s.valsets - Prunable(s, window))
  }

  /** A panic in the tally or in the creation ends the block there. */
  ghost function AfterJudging(s: State, b: BlockInput): State {
    var s2 := Observe(s, b.origins);
    if s2.halted then s2
    else
      var s3 := Create(s2, b.unbonding, b.current);
      if s3.halted then s3 else Prune(s3, b.window)
  }

  ghost predicate EndBlock(s: State, b: BlockInput, s': State) {
    exists s1 :: Judge(s, b.window, s1) && s' == AfterJudging(s1, b)
  }

  // ---------------------------------------------------------------------------------------------
  // The keeper

  ghost predicate SharedKey(bonded: seq<Bonded>) {
    exists i, j :: 0 <= i < j < |bonded| && bonded[i].key.Some? && bonded[i].key == bonded[j].key
  }

  ghost predicate NoPower(bonded: seq<Bonded>) {
    forall i :: 0 <= i < |bonded| && bonded[i].key.Some? ==> bonded[i].power == 0
  }

  /** Every key with its power, and nothing else. */
  ghost predicate Collected(bonded: seq<Bonded>, raw: Members) {
    && (forall i :: 0 <= i < |bonded| && bonded[i].key.Some? ==> bonded[i].key.value in raw && raw[bonded[i].key.value] == bonded[i].power)
    && (forall x :: x in raw ==> HasKey(bonded, x))
  }

  ghost predicate HasKey(bonded: seq<Bonded>, x: EthAddress) {
    exists i :: 0 <= i < |bonded| && bonded[i].key == Some(x)
  }

  lemma CollectNext(front: seq<Bonded>, b: Bonded, raw: Members)
    requires !SharedKey(front) && Collected(front, raw)
    ensures b.key.None? ==> !SharedKey(front + [b]) && Collected(front + [b], raw)
    ensures b.key.Some? && b.key.value !in raw ==> !SharedKey(front + [b]) && Collected(front + [b], raw[b.key.value := b.power])
    ensures b.key.Some? && b.key.value in raw ==> SharedKey(front + [b])
  {
    var all := front + [b];
    forall x: EthAddress | HasKey(front, x)
      ensures HasKey(all, x)
    {
      var i :| 0 <= i < |front| && front[i].key == Some(x);
      assert all[i].key == Some(x);
    }
    if b.key.Some? {
      assert all[|front|].key == b.key;
      if b.key.value in raw {
        assert HasKey(front, b.key.value);
        var i :| 0 <= i < |front| && front[i].key == b.key;
        assert all[i].key == all[|front|].key;
      }
    }
  }

  lemma SharedPrefix(bonded: seq<Bonded>, n: nat)
    requires n <= |bonded| && SharedKey(bonded[..n])
    ensures SharedKey(bonded)
  {
    var i, j :| 0 <= i < j < n && bonded[..n][i].key.Some? && bonded[..n][i].key == bonded[..n][j].key;
    assert bonded[i].key == bonded[j].key;
  }

  lemma TotalIffPower(bonded: seq<Bonded>, raw: Members)
    requires Collected(bonded, raw)
    ensures Power(raw, raw.Keys) == 0 <==> NoPower(bonded)
  {
    hide Power;
    if NoPower(bonded) {
      forall x | x in raw
        ensures raw[x] == 0
      {
        assert HasKey(bonded, x);
      }
      NoPowerNoTotal(raw, raw.Keys);
    }
    if Power(raw, raw.Keys) == 0 {
      forall i | 0 <= i < |bonded| && bonded[i].key.Some?
        ensures bonded[i].power == 0
      {
        PowerSplit(raw, raw.Keys, bonded[i].key.value);
      }
    }
  }

  lemma {:induction false} NoPowerNoTotal(m: Members, s: set<EthAddress>)
    requires forall x :: x in s ==> PowerAt(m, x) == 0
    ensures Power(m, s) == 0
  {
    if s != {} {
      var x :| x in s;
      PowerSplit(m, s, x);
      NoPowerNoTotal(m, s - {x});
    }
  }

  class ValsetKeeper {
    var height: nat
    var valsets: map<nat, Valset>
    var latestNonce: nat
    var observed: Option<nat>
    var halted: bool

    ghost predicate Models(s: State)
      reads this
    {
      height == s.height && valsets == s.valsets && latestNonce == s.latest && observed == s.observed && halted == s.halted
    }

    method CollectPowers(bonded: seq<Bonded>) returns (ok: bool, raw: Members, total: nat)
      ensures ok <==> !SharedKey(bonded)
      ensures ok ==> Collected(bonded, raw) && total == Power(raw, raw.Keys)
    {
      hide Power;
      ok, raw, total := true, map[], 0;
      NoPowerNoTotal(raw, raw.Keys);
      for i := 0 to |bonded|
        invariant ok && !SharedKey(bonded[..i]) && Collected(bonded[..i], raw)
        invariant total == Power(raw, raw.Keys)
      {
        assert bonded[..i + 1] == bonded[..i] + [bonded[i]];
        CollectNext(bonded[..i], bonded[i], raw);
        if bonded[i].key.Some? {
          var x := bonded[i].key.value;
          if x in raw {
            SharedPrefix(bonded, i + 1);
            ok := false;
            return;
          }
          AddMember(raw, x, bonded[i].power);
          raw := raw[x := bonded[i].power];
          total := total + bonded[i].power;
        }
      }
      assert bonded[..|bonded|] == bonded;
    }

    /** The members are the keys of the bonded validators; normalising loses less than one unit for each. */
    method CurrentValset(bonded: seq<Bonded>, lookup: RewardLookup) returns (c: Current)
      ensures c.NoValidators? <==> bonded == []
      ensures c.Unusable? <==> bonded != [] && (SharedKey(bonded) || NoPower(bonded) || lookup.UnknownDenom?)
      ensures c.Set? ==>
        && lookup == Known(c.reward)
        && (exists raw, total :: Collected(bonded, raw) && total == Power(raw, raw.Keys) > 0 && c.members == Normalised(raw, total))
        && Power(c.members, c.members.Keys) <= FULL_POWER < Power(c.members, c.members.Keys) + |c.members|
    {
      hide Power, SharedKey, Collected;
      if bonded == [] {
        return NoValidators;
      }
      var ok, raw, total := CollectPowers(bonded);
      if !ok {
        return Unusable;
      }
      TotalIffPower(bonded, raw);
      if total == 0 {
        return Unusable;
      }
      if lookup.UnknownDenom? {
        return Unusable;
      }
      NormalisedTotal(raw, total);
      c := Set(Normalised(raw, total), lookup.reward);
      assert c.members.Keys == raw.Keys;
      assert |c.members| == |c.members.Keys| == |raw.Keys| == |raw|;
    }

    /** The handler of one update; on an error nothing it did is kept. */
    method HandleValsetUpdated(u: Update, origin: Origin, ghost s: State) returns (failed: bool)
      requires Models(s) && !halted && s.applied < |s.updates| && s.updates[s.applied] == u
      modifies this`observed, this`halted
      ensures Models(ObserveOne(s, origin))
      ensures !halted && s.applied !in s.dropped ==> (failed <==> s.applied in ObserveOne(s, origin).dropped)
      ensures var known := u.nonce == 0 || u.nonce in valsets;
        var differs := u.nonce in valsets && (valsets[u.nonce].members != u.members || valsets[u.nonce].reward != u.reward);
        var pays := u.reward.amount > 0 && u.reward.token != 0;
        && (failed <==> !known || ((u.nonce == 0 || !differs) && pays && origin.Unclassified?))
        && (halted <==> known && ((u.nonce != 0 && differs) || (pays && origin.FromEthereum?)))
        && observed == if failed || halted then old(observed) else Some(u.nonce)
    {
      failed := false;
      var before := observed;
      if u.nonce != 0 {
        if u.nonce !in valsets {
          return true;
        }
        var trusted := valsets[u.nonce];
        if trusted.members != u.members || trusted.reward != u.reward {
          halted := true;
          return;
        }
      }
      observed := Some(u.nonce);
      if u.reward.amount > 0 && u.reward.token != ZERO_ADDRESS {
        match origin {
          case Unclassified =>
            observed := before;
            return true;
          case FromCosmos =>
          case FromEthereum =>
            observed := before;
            halted := true;
        }
      }
    }

    method CreateValsets(unbonding: bool, current: Current, ghost s: State)
      requires Models(s)
      modifies this`valsets, this`latestNonce, this`halted
      ensures Models(Create(s, unbonding, current))
      ensures current.Set? && old(latestNonce) in old(valsets) && old(latestNonce) + 1 !in old(valsets) ==>
        var newest := old(valsets)[old(latestNonce)].members;
        if unbonding || 20 * Drift(current.members, newest, current.members.Keys + newest.Keys) > 4294967295
        then latestNonce == old(latestNonce) + 1 && valsets == old(valsets)[latestNonce := Valset(height, current.members, current.reward)]
        else latestNonce == old(latestNonce) && valsets == old(valsets)
    {
      var significant := false;
      if latestNonce in valsets {
        if current.NoValidators? {
          return;
        }
        if current.Unusable? {
          halted := true;
          return;
        }
        var delta := PowerDiff(current.members, valsets[latestNonce].members);
        significant := Significant(delta);
      }
      if latestNonce !in valsets || unbonding || significant {
        SetValsetRequest(current);
      }
    }

    method SetValsetRequest(current: Current)
      modifies this`valsets, this`latestNonce, this`halted
      ensures !current.Set? || old(latestNonce) + 1 in old(valsets) ==>
        halted && valsets == old(valsets) && latestNonce == old(latestNonce)
      ensures current.Set? && old(latestNonce) + 1 !in old(valsets) ==>
        && halted == old(halted) && latestNonce == old(latestNonce) + 1
        && valsets == old(valsets)[latestNonce := Valset(height, current.members, current.reward)]
    {
      if !current.Set? || latestNonce + 1 in valsets {
        halted := true;
      } else {
        latestNonce := latestNonce + 1;
        valsets := valsets[latestNonce := Valset(height, current.members, current.reward)];
      }
    }

    /** Deletes while walking the stored valsets; the order does not matter. */
    method PruneValsets(window: nat, ghost s: State)
      requires Models(s)
      modifies this`valsets
      ensures Models(Prune(s, window))
      ensures forall n :: n in valsets <==>
        n in old(valsets) && !(observed.Some? && n < observed.value && old(valsets)[n].height + window < height)
      ensures forall n :: n in valsets ==> valsets[n] == old(valsets)[n]
    {
      if observed.Some? && !(height < window) {
        var earliest: nat := height - window;
        var todo := valsets.Keys;
        ghost var prunable := Prunable(s, window);
        while todo != {}
          invariant todo <= valsets.Keys
          invariant valsets == s.valsets - (prunable - todo)
          decreases todo
        {
          var n :| n in todo;
          todo := todo - {n};
          if n < observed.value && valsets[n].height < earliest {
            valsets := valsets - {n};
          }
        }
      }
    }
  }

  lemma AddMember(raw: Members, x: EthAddress, p: nat)
    requires x !in raw
    ensures Power(raw[x := p], raw[x := p].Keys) == Power(raw, raw.Keys) + p
  {
    var more := raw[x := p];
    PowerSplit(more, more.Keys, x);
    assert more.Keys - {x} == raw.Keys;
    SumSame(raw.Keys, (x: EthAddress) => PowerAt(more, x), (x: EthAddress) => PowerAt(raw, x));
  }
}
