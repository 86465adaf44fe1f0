/** Safety of validator set handling over every run. */
module ValsetRuns {
  import opened BridgePower
  import opened ContractLimits
  import opened Options
  import opened Valsets

  datatype Step =
    | NextBlock(input: BlockInput)
    | Submit(nonce: nat)

  function LastNonce(s: State): nat
    requires s.updates != []
  {
    s.updates[|s.updates| - 1].nonce
  }

  /** The contract takes any valset the chain has created, stored or not, with a larger nonce within reach. */
  ghost predicate Next(s: State, step: Step, s': State) {
    match step
    case NextBlock(b) => EndBlock(s.(height := s.height + 1), b, s')
    case Submit(n) =>
      && s.updates != [] && n in s.created
      && LastNonce(s) < n <= LastNonce(s) + MAX_NONCE_STEP
      && s' == s.(updates := s.updates + [Update(n, s.created[n].members, s.created[n].reward)])
  }

  function Genesis(height: nat, first: Members): State {
    State(height, map[], 0, None, 0, map[], {}, [Update(0, first, NO_REWARD)], 0, {}, false)
  }

  /** There is somebody to make a valset of, or an older valset to carry on with. */
  predicate Usable(s: State, current: Current) {
    current.Set? || (current.NoValidators? && s.latest > 0)
  }

  /** Some update the block observes pays a reward in a token from Ethereum. */
  ghost predicate FatalReward(s: State, origins: seq<Origin>) {
    exists j :: 0 <= j < |origins| && s.applied + j < |s.updates| && Pays(s.updates[s.applied + j].reward) && origins[j].FromEthereum?
  }

  // ---------------------------------------------------------------------------------------------
  // The invariant

  /** The stored valsets are the newest ones, without gaps. */
  ghost predicate Suffix(valsets: map<nat, Valset>, created: map<nat, Valset>, latest: nat) {
    && (forall n :: n in created <==> 1 <= n <= latest)
    && (forall n :: n in valsets ==> n in created && created[n] == valsets[n])
    && (latest > 0 ==> latest in valsets)
    && (forall n, m :: n in valsets && m in created && n <= m ==> m in valsets)
  }

  ghost predicate Aged(created: map<nat, Valset>, height: nat) {
    forall n, m :: n in created && m in created && n <= m ==> created[n].height <= created[m].height <= height
  }

  /** Slashing has looked at everything up to its watermark and at everything that is gone. */
  ghost predicate JudgedFirst(valsets: map<nat, Valset>, created: map<nat, Valset>, lastSlashed: nat,
        judged: set<nat>) {
    && (lastSlashed > 0 ==> lastSlashed in created)
    && forall n :: n in created && (n <= lastSlashed || n !in valsets) ==> n in judged
  }

  ghost predicate Carries(u: Update, created: map<nat, Valset>) {
    u.nonce in created && u.members == created[u.nonce].members && u.reward == created[u.nonce].reward
  }

  /** The contract's log: increasing nonces of valsets the chain has created. */
  ghost predicate GoodLog(updates: seq<Update>, created: map<nat, Valset>) {
    && updates != [] && updates[0].nonce == 0 && updates[0].reward == NO_REWARD
    && (forall i, j :: 0 <= i < j < |updates| ==> updates[i].nonce < updates[j].nonce)
    && (forall i :: 0 < i < |updates| ==> Carries(updates[i], created))
  }

  /** The nonce of the last applied update that was not dropped. */
  function LastKept(updates: seq<Update>, applied: nat, dropped: set<nat>): Option<nat>
    requires applied <= |updates|
  {
    if applied == 0 then None
    else if applied - 1 in dropped then LastKept(updates, applied - 1, dropped)
    else Some(updates[applied - 1].nonce)
  }

  /** Only valsets below the observed one are gone. */
  ghost predicate OldOnesGone(valsets: map<nat, Valset>, created: map<nat, Valset>, observed: Option<nat>) {
    forall n :: n in created && n !in valsets ==> observed.Some? && n < observed.value
  }

  /** The observed valset is the one of the last update that was not dropped. */
  ghost predicate Follows(s: State) {
    && s.applied <= |s.updates| && s.observed == LastKept(s.updates, s.applied, s.dropped)
    && (forall i :: i in s.dropped ==> 0 <= i < s.applied && Pays(s.updates[i].reward))
  }

  ghost predicate Inv(s: State) {
    && Suffix(s.valsets, s.created, s.latest)
    && Aged(s.created, s.height)
    && JudgedFirst(s.valsets, s.created, s.lastSlashed, s.judged)
    && GoodLog(s.updates, s.created)
    && OldOnesGone(s.valsets, s.created, s.observed)
    && Follows(s)
  }

  /** Whatever is old enough to be pruned has been judged. */
  ghost predicate Swept(s: State, window: nat) {
    forall n :: n in s.valsets && s.valsets[n].height + window < s.height ==> n in s.judged
  }

  // ---------------------------------------------------------------------------------------------
  // Judging

  lemma JudgeKeeps(s: State, window: nat, s': State)
    requires Inv(s) && Judge(s, window, s')
    ensures Inv(s') && Swept(s', window) && s' == s.(lastSlashed := s'.lastSlashed, judged := s'.judged)
  {
    var due := DueNonces(s, window);
    forall n | n in s.created && n <= s'.lastSlashed
      ensures n in s'.judged
    {
      if n in s.valsets && s.lastSlashed < n && due != {} {
        assert s.created[n].height <= s.created[s'.lastSlashed].height;
        assert n in due;
      }
    }
    forall n | n in s.valsets && s.valsets[n].height + window < s.height
      ensures n in s'.judged
    {
      assert s.lastSlashed < n ==> n in due;
    }
  }

  // ---------------------------------------------------------------------------------------------
  // Observing

  lemma {:induction false} LastKeptIsOlder(updates: seq<Update>, applied: nat, dropped: set<nat>, i: nat)
    requires applied <= i < |updates| && forall j, k :: 0 <= j < k < |updates| ==> updates[j].nonce < updates[k].nonce
    ensures LastKept(updates, applied, dropped).Some? ==> LastKept(updates, applied, dropped).value < updates[i].nonce
  {
    if applied > 0 && applied - 1 in dropped {
      LastKeptIsOlder(updates, applied - 1, dropped, i);
    }
  }

  lemma {:induction false} LastKeptSame(updates: seq<Update>, more: seq<Update>, applied: nat, dropped: set<nat>,
        d: set<nat>)
    requires applied <= |updates| <= |more| && forall i :: 0 <= i < applied ==> updates[i] == more[i] && (i in dropped <==> i in d)
    ensures LastKept(updates, applied, dropped) == LastKept(more, applied, d)
  {
    if applied > 0 {
      LastKeptSame(updates, more, applied - 1, dropped, d);
    }
  }

  /** The next update is of a stored valset and tells it truly. */
  lemma NextUpdate(s: State)
    requires Inv(s) && s.applied < |s.updates|
    ensures var u := s.updates[s.applied];
      && (u.nonce == 0 ==> u.reward == NO_REWARD)
      && (u.nonce != 0 ==> u.nonce in s.valsets && s.valsets[u.nonce].members == u.members && s.valsets[u.nonce].reward == u.reward)
  {
    var u := s.updates[s.applied];
    LastKeptIsOlder(s.updates, s.applied, s.dropped, s.applied);
    if s.applied > 0 {
      assert s.updates[0].nonce < u.nonce;
      assert Carries(u, s.created);
    }
  }

  /**
  Every update finds its valset. Its handling halts the chain exactly when it pays in a token from Ethereum, is
  dropped exactly when it pays in a token that does not classify, and otherwise makes its valset the observed one.
   */
  lemma UpdateDecided(s: State, origin: Origin)
    requires Inv(s) && !s.halted && s.applied < |s.updates|
    ensures var u, s' := s.updates[s.applied], ObserveOne(s, origin);
      var pays := u.reward.amount > 0 && u.reward.token != 0;
      && (s'.halted <==> pays && origin.FromEthereum?)
      && (s.applied in s'.dropped <==> pays && origin.Unclassified?)
      && (!s'.halted && s.applied !in s'.dropped ==> s'.observed == Some(u.nonce))
      && (s.applied in s'.dropped ==> s'.observed == s.observed)
  {
    NextUpdate(s);
  }

  lemma ObserveOneKeeps(s: State, window: nat, origin: Origin)
    requires Inv(s) && Swept(s, window) && !s.halted && s.applied < |s.updates| && !ObserveOne(s, origin).halted
    ensures var s' := ObserveOne(s, origin); Inv(s') && Swept(s', window)
  {
    hide Suffix, Aged, JudgedFirst, GoodLog, Swept;
    var s' := ObserveOne(s, origin);
    NextUpdate(s);
    LogAscends(s);
    LastKeptIsOlder(s.updates, s.applied, s.dropped, s.applied);
    LastKeptSame(s.updates, s.updates, s.applied, s.dropped, s'.dropped);
    SweptFrame(s, s', window);
  }

  lemma LogAscends(s: State)
    requires Inv(s)
    ensures forall j, k :: 0 <= j < k < |s.updates| ==> s.updates[j].nonce < s.updates[k].nonce
  {
  }

  lemma SweptFrame(s: State, s': State, window: nat)
    requires Swept(s, window) && s'.valsets == s.valsets && s'.height == s.height && s'.judged == s.judged
    ensures Swept(s', window)
  {
  }

  /** A block's observations halt exactly on a fatal reward. */
  lemma {:induction false} ObserveKeeps(s: State, window: nat, origins: seq<Origin>)
    requires Inv(s) && Swept(s, window) && !s.halted
    ensures var s' := Observe(s, origins);
      && (s'.halted <==> FatalReward(s, origins))
      && (!s'.halted ==> Inv(s') && Swept(s', window))
      && s'.latest == s.latest && s'.updates == s.updates
    decreases |origins|
  {
    hide Inv, Swept, ObserveOne;
    if origins != [] && s.applied < |s.updates| {
      var s1 := ObserveOne(s, origins[0]);
      UpdateDecided(s, origins[0]);
      ObserveOneFrame(s, origins[0]);
      assert FatalReward(s, origins) <==> s1.halted || FatalReward(s1, origins[1..]) by {
        FatalSplits(s, origins, s1);
      }
      if !s1.halted {
        ObserveOneKeeps(s, window, origins[0]);
        ObserveKeeps(s1, window, origins[1..]);
      }
    }
  }

  lemma ObserveOneFrame(s: State, origin: Origin)
    requires s.applied < |s.updates|
    ensures var s' := ObserveOne(s, origin); s'.applied == s.applied + 1 && s'.updates == s.updates && s'.latest == s.latest
  {
  }

  lemma FatalSplits(s: State, origins: seq<Origin>, s1: State)
    requires origins != [] && s.applied < |s.updates| && s1.applied == s.applied + 1 && s1.updates == s.updates
    requires s1.halted <==> Pays(s.updates[s.applied].reward) && origins[0].FromEthereum?
    ensures FatalReward(s, origins) <==> s1.halted || FatalReward(s1, origins[1..])
  {
    if FatalReward(s, origins) {
      var j :| 0 <= j < |origins| && s.applied + j < |s.updates| && Pays(s.updates[s.applied + j].reward) && origins[j].FromEthereum?;
      if j > 0 {
        assert s1.applied + (j - 1) < |s1.updates| && Pays(s1.updates[s1.applied + (j - 1)].reward) && origins[1..][j - 1].FromEthereum?;
      }
    }
    if FatalReward(s1, origins[1..]) {
      var j :| 0 <= j < |origins[1..]| && s1.applied + j < |s1.updates| && Pays(s1.updates[s1.applied + j].reward) && origins[1..][j].FromEthereum?;
      assert s.applied + (j + 1) < |s.updates| && Pays(s.updates[s.applied + (j + 1)].reward) && origins[j + 1].FromEthereum?;
    }
    if s1.halted {
      assert Pays(s.updates[s.applied + 0].reward) && origins[0].FromEthereum?;
    }
  }

  // ---------------------------------------------------------------------------------------------
  // Creating

  lemma StoreKeeps(s: State, window: nat, m: Members, r: Reward)
    requires Inv(s) && Swept(s, window)
    ensures var s' := Store(s, m, r);
      && Inv(s') && Swept(s', window) && s'.halted == s.halted
      && s'.latest in s'.valsets && s'.valsets[s'.latest] == Valset(s.height, m, r)
  {
    assert s.latest + 1 !in s.created;
    StoreExtends(s, m, r);
    StoreKeepsLog(s.updates, s.created, s.latest + 1, Valset(s.height, m, r));
    StoreKeepsRest(s, window, s.latest + 1, Valset(s.height, m, r));
    hide Suffix, Aged, JudgedFirst, GoodLog, OldOnesGone, Swept, Follows;
  }

  lemma StoreExtends(s: State, m: Members, r: Reward)
    requires Suffix(s.valsets, s.created, s.latest) && Aged(s.created, s.height)
    requires JudgedFirst(s.valsets, s.created, s.lastSlashed, s.judged)
    ensures var n, v := s.latest + 1, Valset(s.height, m, r);
      && n !in s.created && n !in s.valsets
      && Suffix(s.valsets[n := v], s.created[n := v], n)
      && Aged(s.created[n := v], s.height)
      && JudgedFirst(s.valsets[n := v], s.created[n := v], s.lastSlashed, s.judged)
  {
    assert s.latest + 1 !in s.created;
  }

  lemma StoreKeepsLog(updates: seq<Update>, created: map<nat, Valset>, n: nat, v: Valset)
    requires GoodLog(updates, created) && n !in created
    ensures GoodLog(updates, created[n := v])
  {
    forall i | 0 < i < |updates|
      ensures Carries(updates[i], created[n := v])
    {
      assert Carries(updates[i], created);
    }
  }

  lemma StoreKeepsRest(s: State, window: nat, n: nat, v: Valset)
    requires Swept(s, window) && v.height == s.height && Follows(s) && OldOnesGone(s.valsets, s.created, s.observed)
    ensures var s' := s.(valsets := s.valsets[n := v], created := s.created[n := v], latest := n);
      OldOnesGone(s'.valsets, s'.created, s'.observed) && Follows(s') && Swept(s', window)
  {
  }

  lemma {:induction false} NoDrift(m: Members, keys: set<EthAddress>)
    ensures Drift(m, m, keys) == 0
  {
    if keys != {} {
      var x :| x in keys;
      DriftSplit(m, m, keys, x);
      NoDrift(m, keys - {x});
    }
  }

  /** The newest stored valset is within 5% of the current members, and is the current set when somebody unbonds. */
  ghost predicate Fresh(s: State, unbonding: bool, m: Members, r: Reward) {
    && s.latest in s.valsets
    && !Significant(Drift(m, s.valsets[s.latest].members, m.Keys + s.valsets[s.latest].members.Keys))
    && (unbonding ==> s.valsets[s.latest] == Valset(s.height, m, r))
  }

  lemma CreateKeeps(s: State, window: nat, unbonding: bool, current: Current)
    requires Inv(s) && Swept(s, window) && !s.halted
    ensures var s' := Create(s, unbonding, current); Inv(s') && Swept(s', window)
    ensures Create(s, unbonding, current).halted <==> !Usable(s, current)
    ensures current.Set? ==> Fresh(Create(s, unbonding, current), unbonding, current.members, current.reward)
  {
    hide Inv, Swept;
    LatestStored(s);
    if current.Set? {
      StoreKeeps(s, window, current.members, current.reward);
      NoDrift(current.members, current.members.Keys + current.members.Keys);
    } else {
      HaltKeeps(s, window);
    }
  }

  lemma LatestStored(s: State)
    requires Inv(s)
    ensures s.latest in s.valsets <==> s.latest > 0
  {
  }

  lemma HaltKeeps(s: State, window: nat)
    requires Inv(s) && Swept(s, window)
    ensures var s' := s.(halted := true); Inv(s') && Swept(s', window)
  {
  }

  // ---------------------------------------------------------------------------------------------
  // Pruning

  /** Pruning removes nothing that was not judged, nor the observed valset, nor any later one. */
  lemma PruneKeeps(s: State, window: nat)
    requires Inv(s) && Swept(s, window)
    ensures Inv(Prune(s, window))
    ensures forall n :: n in s.valsets && n !in Prune(s, window).valsets ==> n in s.judged && s.observed.Some? && n < s.observed.value
    ensures forall n :: n in Prune(s, window).valsets ==> n in s.valsets && Prune(s, window).valsets[n] == s.valsets[n]
  {
    var gone := Prunable(s, window);
    forall n | n in gone
      ensures n in s.valsets && n in s.judged && s.observed.Some? && n < s.observed.value
    {
      assert s.valsets[n].height + window < s.height;
    }
    PrunePrefix(s, window);
    RemoveJudged(s, gone);
    hide Prunable, Swept, GoodLog, Aged, Suffix, JudgedFirst, OldOnesGone, Follows;
  }

  lemma RemoveJudged(s: State, gone: set<nat>)
    requires JudgedFirst(s.valsets, s.created, s.lastSlashed, s.judged) && OldOnesGone(s.valsets, s.created, s.observed) && Follows(s)
    requires forall n :: n in gone ==> n in s.valsets && n in s.judged && s.observed.Some? && n < s.observed.value
    ensures JudgedFirst(s.valsets - gone, s.created, s.lastSlashed, s.judged)
    ensures OldOnesGone(s.valsets - gone, s.created, s.observed)
    ensures Follows(s.(valsets := s.valsets - gone))
  {
  }

  lemma {:induction false} LastKeptIsLogged(s: State, applied: nat)
    requires GoodLog(s.updates, s.created) && applied <= |s.updates|
    ensures var k := LastKept(s.updates, applied, s.dropped); k.Some? && k.value != 0 ==> k.value in s.created
  {
    if applied > 0 {
      LastKeptIsLogged(s, applied - 1);
      assert applied > 1 ==> Carries(s.updates[applied - 1], s.created);
    }
  }

  lemma PrunePrefix(s: State, window: nat)
    requires Inv(s)
    ensures Suffix(s.valsets - Prunable(s, window), s.created, s.latest)
  {
    var valsets := s.valsets - Prunable(s, window);
    forall n, m | n in valsets && m in s.created && n <= m
      ensures m in valsets
    {
      assert m in s.valsets;
      assert s.created[n].height <= s.created[m].height;
    }
    LastKeptIsLogged(s, s.applied);
  }

  // ---------------------------------------------------------------------------------------------
  // Blocks and runs

  /**
  A block halts exactly when it observes a fatal reward or no valset can be made. Otherwise the newest stored
  valset is fresh and has survived the pruning.
   */
  lemma EndBlockKeeps(s: State, b: BlockInput, s': State)
    requires Inv(s) && !s.halted && EndBlock(s, b, s')
    ensures s'.halted <==> FatalReward(s, b.origins) || !Usable(s, b.current)
    ensures !s'.halted ==> Inv(s')
    ensures !s'.halted && b.current.Set? ==> Fresh(s', b.unbonding, b.current.members, b.current.reward)
  {
    hide Inv, Swept, Judge, Create, Observe, Prunable;
    var s1 :| Judge(s, b.window, s1) && s' == AfterJudging(s1, b);
    JudgeKeeps(s, b.window, s1);
    assert FatalReward(s1, b.origins) <==> FatalReward(s, b.origins);
    ObserveKeeps(s1, b.window, b.origins);
    var s2 := Observe(s1, b.origins);
    if !s2.halted {
      CreateKeeps(s2, b.window, b.unbonding, b.current);
      var s3 := Create(s2, b.unbonding, b.current);
      if !s3.halted {
        PruneKeeps(s3, b.window);
        LatestStored(s');
        LatestStored(s3);
      }
    }
  }

  lemma TimePasses(s: State)
    requires Inv(s)
    ensures Inv(s.(height := s.height + 1))
  {
  }

  lemma SubmitKeeps(s: State, n: nat)
    requires s.updates != [] && Inv(s) && n in s.created && LastNonce(s) < n
    ensures Inv(s.(updates := s.updates + [Update(n, s.created[n].members, s.created[n].reward)]))
  {
    var more := s.updates + [Update(n, s.created[n].members, s.created[n].reward)];
    LastKeptSame(s.updates, more, s.applied, s.dropped, s.dropped);
    SubmitKeepsLog(s, n);
    hide Suffix, Aged, JudgedFirst, GoodLog, OldOnesGone;
  }

  lemma SubmitKeepsLog(s: State, n: nat)
    requires s.updates != [] && GoodLog(s.updates, s.created) && n in s.created && LastNonce(s) < n
    ensures GoodLog(s.updates + [Update(n, s.created[n].members, s.created[n].reward)], s.created)
  {
  }

  ghost predicate IsRun(states: seq<State>, steps: seq<Step>) {
    && |states| == |steps| + 1
    && (exists height, first :: states[0] == Genesis(height, first))
    && (forall i :: 0 <= i < |steps| ==> !states[i].halted && Next(states[i], steps[i], states[i + 1]))
  }

  lemma GenesisInv(height: nat, first: Members)
    ensures Inv(Genesis(height, first))
  {
  }

  /** What halts a step. */
  ghost predicate Halts(s: State, step: Step) {
    step.NextBlock? && (FatalReward(s, step.input.origins) || !Usable(s, step.input.current))
  }

  lemma StepKeeps(s: State, step: Step, s': State)
    requires Inv(s) && !s.halted && Next(s, step, s')
    ensures s'.halted <==> Halts(s, step)
    ensures !s'.halted ==> Inv(s')
  {
    hide Inv, EndBlock;
    match step
    case NextBlock(b) =>
      TimePasses(s);
      var later := s.(height := s.height + 1);
      EndBlockKeeps(later, b, s');
      assert FatalReward(later, b.origins) <==> FatalReward(s, b.origins);
    case Submit(n) => SubmitKeeps(s, n);
  }

  /**
  In every run nothing is deleted before it was judged, the observed valset is stored, every update finds its
  valset, and a block halts exactly on a fatal reward or when no valset can be made.
   */
  lemma {:induction false} EveryRunKeepsInv(states: seq<State>, steps: seq<Step>, i: nat)
    requires IsRun(states, steps) && i < |states|
    ensures !states[i].halted ==> Inv(states[i])
    ensures states[i].halted <==> i > 0 && Halts(states[i - 1], steps[i - 1])
  {
    hide Inv, Next, Halts;
    if i == 0 {
      var height, first :| states[0] == Genesis(height, first);
      GenesisInv(height, first);
    } else {
      EveryRunKeepsInv(states, steps, i - 1);
      assert !states[i - 1].halted && Next(states[i - 1], steps[i - 1], states[i - 1 + 1]);
      StepKeeps(states[i - 1], steps[i - 1], states[i]);
    }
  }

  // ---------------------------------------------------------------------------------------------
  // Which updates are dropped

  /** Observing changes `dropped` at the observed positions only, as the origins say. */
  lemma {:induction false} ObserveDrops(s: State, origins: seq<Origin>, p: nat)
    requires Inv(s) && !s.halted && !Observe(s, origins).halted && p < |s.updates|
    ensures var s' := Observe(s, origins);
      && s.applied <= s'.applied <= s.applied + |origins|
      && (p < s.applied || p >= s'.applied ==> (p in s'.dropped <==> p in s.dropped))
      && (s.applied <= p < s'.applied ==> (p in s'.dropped <==> Pays(s.updates[p].reward) && origins[p - s.applied].Unclassified?))
    decreases |origins|
  {
    hide Inv, ObserveOne;
    if origins != [] && s.applied < |s.updates| {
      var s1 := ObserveOne(s, origins[0]);
      UpdateDecided(s, origins[0]);
      ObserveOneFrame(s, origins[0]);
      DropFrame(s, origins[0], p);
      if !s1.halted {
        InvOneMore(s, origins[0]);
        ObserveDrops(s1, origins[1..], p);
      }
    }
  }

  lemma DropFrame(s: State, origin: Origin, p: nat)
    requires s.applied < |s.updates|
    ensures p != s.applied ==> (p in ObserveOne(s, origin).dropped <==> p in s.dropped)
  {
  }

  lemma InvOneMore(s: State, origin: Origin)
    requires Inv(s) && !s.halted && s.applied < |s.updates| && !ObserveOne(s, origin).halted
    ensures Inv(ObserveOne(s, origin))
  {
    hide Inv, ObserveOne;
    ObserveOneKeeps(s, s.height, origin);
  }

  /** Step `k` is the block that observes update `p`. */
  ghost predicate ObservedIn(states: seq<State>, steps: seq<Step>, k: nat, p: nat)
    requires |states| == |steps| + 1
  {
    k < |steps| && steps[k].NextBlock? && states[k].applied <= p < states[k + 1].applied
  }

  /** What that block finds: the update pays in a token that does not classify. */
  ghost predicate DroppedIn(states: seq<State>, steps: seq<Step>, k: nat, p: nat)
    requires |states| == |steps| + 1 && ObservedIn(states, steps, k, p)
  {
    && p < |states[k].updates| && Pays(states[k].updates[p].reward)
    && p - states[k].applied < |steps[k].input.origins| && steps[k].input.origins[p - states[k].applied].Unclassified?
  }

  /** A step never forgets, and drops exactly what its own input says. */
  lemma StepDrops(s: State, step: Step, s': State, p: nat)
    requires Inv(s) && !s.halted && Next(s, step, s') && !s'.halted
    ensures s.applied <= s'.applied && s.updates <= s'.updates
    ensures p < s.applied ==> (p in s'.dropped <==> p in s.dropped)
    ensures step.Submit? ==> s'.applied == s.applied
    ensures step.NextBlock? && s.applied <= p < s'.applied ==>
      && p < |s.updates| && p - s.applied < |step.input.origins|
      && (p in s'.dropped <==> Pays(s.updates[p].reward) && step.input.origins[p - s.applied].Unclassified?)
  {
    hide Inv, Judge, Observe, AfterJudging;
    if step.NextBlock? {
      var b := step.input;
      var later := s.(height := s.height + 1);
      TimePasses(s);
      var s1 :| Judge(later, b.window, s1) && s' == AfterJudging(s1, b);
      JudgeKeeps(later, b.window, s1);
      AfterObserving(s1, b);
      ObserveKeeps(s1, b.window, b.origins);
      ObservedWithinLog(s1, b);
      ObserveDrops(s1, b.origins, if p < |s.updates| then p else 0);
    }
  }

  /** Creating and pruning leave the observations alone. */
  lemma AfterObserving(s: State, b: BlockInput)
    requires !AfterJudging(s, b).halted
    ensures var s2, s' := Observe(s, b.origins), AfterJudging(s, b);
      !s2.halted && s'.applied == s2.applied && s'.updates == s2.updates && s'.dropped == s2.dropped
  {
    hide Observe, Stale, Prunable;
  }

  lemma ObservedWithinLog(s: State, b: BlockInput)
    requires Inv(s) && Inv(Observe(s, b.origins)) && Observe(s, b.origins).updates == s.updates
    ensures Observe(s, b.origins).applied <= |s.updates| && s.updates != []
  {
  }

  /** Every applied update has the block that observed it. */
  lemma {:induction false} ObservedSomewhere(states: seq<State>, steps: seq<Step>, i: nat, p: nat)
    requires IsRun(states, steps) && i < |states| && !states[i].halted && p < states[i].applied
    ensures exists k :: 0 <= k < i && ObservedIn(states, steps, k, p)
  {
    hide Inv, Next, Halts;
    assert i > 0;
    EveryRunKeepsInv(states, steps, i - 1);
    assert !states[i - 1].halted && Next(states[i - 1], steps[i - 1], states[i - 1 + 1]);
    StepDrops(states[i - 1], steps[i - 1], states[i], p);
    if p < states[i - 1].applied {
      ObservedSomewhere(states, steps, i - 1, p);
    } else {
      assert ObservedIn(states, steps, i - 1, p);
    }
  }

  /** An update is recorded as dropped exactly when the block that observed it found so. */
  lemma {:induction false} DroppedIff(states: seq<State>, steps: seq<Step>, i: nat, k: nat, p: nat)
    requires IsRun(states, steps) && k < i < |states| && !states[i].halted && ObservedIn(states, steps, k, p)
    ensures p < states[i].applied && states[k].updates <= states[i].updates
    ensures p in states[i].dropped <==> DroppedIn(states, steps, k, p)
    decreases i
  {
    hide Inv, Next, Halts;
    EveryRunKeepsInv(states, steps, i - 1);
    assert !states[i - 1].halted && Next(states[i - 1], steps[i - 1], states[i - 1 + 1]);
    StepDrops(states[i - 1], steps[i - 1], states[i], p);
    if k < i - 1 {
      DroppedIff(states, steps, i - 1, k, p);
    }
  }

  /**
  In every run, once the whole log is observed the chain's observed valset is the contract's if and only if the block
  that observed the contract's last update did not find its reward in a token that does not classify.
   */
  lemma ObservedIsCurrentIff(states: seq<State>, steps: seq<Step>, i: nat, k: nat)
    requires IsRun(states, steps) && i < |states| && !states[i].halted
    requires states[i].updates != [] && states[i].applied == |states[i].updates|
    requires k < i && ObservedIn(states, steps, k, |states[i].updates| - 1)
    ensures states[i].observed == Some(LastNonce(states[i])) <==> !DroppedIn(states, steps, k, |states[i].updates| - 1)
  {
    hide Inv, Next, Halts, ObservedIn, DroppedIn;
    EveryRunKeepsInv(states, steps, i);
    DroppedIff(states, steps, i, k, |states[i].updates| - 1);
    CurrentIffKept(states[i]);
  }

  lemma CurrentIffKept(s: State)
    requires Inv(s) && s.updates != [] && s.applied == |s.updates|
    ensures s.observed == Some(LastNonce(s)) <==> |s.updates| - 1 !in s.dropped
  {
    LastKeptIsOlder(s.updates, |s.updates| - 1, s.dropped, |s.updates| - 1);
  }

  /** A coalition's power in the newest stored valset is within 5% of its current one. */
  lemma NewestValsetIsClose(s: State, b: BlockInput, s': State, coalition: set<EthAddress>)
    requires Inv(s) && !s.halted && EndBlock(s, b, s') && b.current.Set? && !s'.halted
    ensures s'.latest in s'.valsets
    ensures var now, newest := Power(b.current.members, coalition), Power(s'.valsets[s'.latest].members, coalition);
      20 * now <= 20 * newest + MAX_UINT32 && 20 * newest <= 20 * now + MAX_UINT32
  {
    hide Inv, EndBlock;
    EndBlockKeeps(s, b, s');
    var members := s'.valsets[s'.latest].members;
    DriftBoundsCoalition(b.current.members, members, coalition, b.current.members.Keys + members.Keys);
  }
}
