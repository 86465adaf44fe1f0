/** What exactly one block does to the validator sets, told from the state before it. */
module ValsetEffects {
  import opened BridgePower
  import opened Options
  import opened Valsets
  import opened ValsetRuns

  /** More than 5% of the power has moved since the newest valset. */
  ghost predicate Moved(s: State, m: Members) {
    s.latest in s.valsets &&
    20 * Drift(m, s.valsets[s.latest].members, m.Keys + s.valsets[s.latest].members.Keys) > 4294967295
  }

  lemma JudgesExactly(s: State, window: nat, s': State)
    requires Judge(s, window, s')
    ensures forall n :: n in s'.judged <==>
      n in s.judged || (n in s.valsets && n > s.lastSlashed && window < s.height && s.valsets[n].height + window <= s.height)
  {
  }

  lemma {:induction false} Largest(due: set<nat>) returns (last: nat)
    requires due != {}
    ensures last in due && forall n :: n in due ==> n <= last
    decreases due
  {
    var x :| x in due;
    last := x;
    if due - {x} != {} {
      var rest := Largest(due - {x});
      last := if x < rest then rest else x;
    }
    forall n | n in due
      ensures n <= last
    {
      assert n == x || n in due - {x};
    }
  }

  /** Every block has an outcome, and only one. */
  lemma BlockHappens(s: State, b: BlockInput) returns (s': State)
    ensures EndBlock(s, b, s') && forall other :: EndBlock(s, b, other) ==> other == s'
  {
    hide AfterJudging;
    var due := DueNonces(s, b.window);
    var last := s.lastSlashed;
    if due != {} {
      last := Largest(due);
    }
    var s1 := s.(lastSlashed := last, judged := s.judged + due);
    assert Judge(s, b.window, s1);
    s' := AfterJudging(s1, b);
    forall other | EndBlock(s, b, other)
      ensures other == s'
    {
      var s2 :| Judge(s, b.window, s2) && other == AfterJudging(s2, b);
      assert s2.lastSlashed == last;
    }
  }

  lemma CreatesExactly(s: State, unbonding: bool, current: Current)
    requires Inv(s) && !s.halted && !Create(s, unbonding, current).halted
    ensures var s' := Create(s, unbonding, current);
      && (s'.latest == s.latest + 1 <==> current.Set? && (s.latest == 0 || unbonding || Moved(s, current.members)))
      && (s'.latest == s.latest + 1 ==>
            && s'.valsets == s.valsets[s'.latest := Valset(s.height, current.members, current.reward)]
            && s'.created == s.created[s'.latest := Valset(s.height, current.members, current.reward)])
      && (s'.latest != s.latest + 1 ==> s' == s)
      && s'.observed == s.observed && s'.judged == s.judged && s'.height == s.height
  {
    hide Drift;
    LatestStored(s);
  }

  lemma PrunesExactly(s: State, window: nat)
    ensures var s' := Prune(s, window);
      && s' == s.(valsets := s'.valsets)
      && (forall n :: n in s'.valsets <==>
            n in s.valsets && !(s.observed.Some? && n < s.observed.value && s.valsets[n].height + window < s.height))
      && (forall n :: n in s'.valsets ==> s'.valsets[n] == s.valsets[n])
  {
  }

  lemma {:induction false} ObserveTouches(s: State, origins: seq<Origin>)
    ensures var s' := Observe(s, origins);
      && s'.valsets == s.valsets && s'.created == s.created && s'.latest == s.latest && s'.height == s.height
      && s'.judged == s.judged
    decreases |origins|
  {
    hide ObserveOne;
    if origins != [] && !s.halted && s.applied < |s.updates| {
      ObserveOneTouches(s, origins[0]);
      ObserveTouches(ObserveOne(s, origins[0]), origins[1..]);
    }
  }

  lemma ObserveOneTouches(s: State, origin: Origin)
    requires s.applied < |s.updates|
    ensures var s' := ObserveOne(s, origin);
      && s'.valsets == s.valsets && s'.created == s.created && s'.latest == s.latest && s'.height == s.height
      && s'.judged == s.judged
  {
  }

  /** What is stored or created in this block, and what of it is old enough to go. */
  ghost predicate Kept(s: State, b: BlockInput, s': State, n: nat) {
    && (n in s.valsets || s.latest < n <= s'.latest) && n in s'.created
    && !(s'.observed.Some? && n < s'.observed.value && s'.created[n].height + b.window < s.height)
  }

  /**
  A block judges exactly the stored valsets above the watermark whose window is over, stores a new one exactly when
  there is none yet, somebody unbonds or more than 5% has moved, and deletes exactly the valsets below the observed
  one that are older than the window.
   */
  lemma BlockExactly(s: State, b: BlockInput, s': State)
    requires Inv(s) && !s.halted && EndBlock(s, b, s') && !s'.halted
    ensures forall n :: n in s'.judged <==>
      n in s.judged || (n in s.valsets && n > s.lastSlashed && b.window < s.height && s.valsets[n].height + b.window <= s.height)
    ensures s'.latest == s.latest + 1 <==> b.current.Set? && (s.latest == 0 || b.unbonding || Moved(s, b.current.members))
    ensures s'.latest != s.latest + 1 ==> s'.latest == s.latest && s'.created == s.created
    ensures s'.latest == s.latest + 1 ==>
      s'.created == s.created[s'.latest := Valset(s.height, b.current.members, b.current.reward)]
    ensures forall n :: n in s'.valsets <==> Kept(s, b, s', n)
  {
    hide Inv, Swept, Judge, Create, Observe, Prune, Moved;
    var s1 :| Judge(s, b.window, s1) && s' == AfterJudging(s1, b);
    JudgeKeeps(s, b.window, s1);
    JudgesExactly(s, b.window, s1);
    ObserveKeeps(s1, b.window, b.origins);
    ObserveTouches(s1, b.origins);
    var s2 := Observe(s1, b.origins);
    CreatesExactly(s2, b.unbonding, b.current);
    SameMoved(s, s2, b.current);
    CreateKeeps(s2, b.window, b.unbonding, b.current);
    var s3 := Create(s2, b.unbonding, b.current);
    PrunesExactly(s3, b.window);
    StoredAreCreated(s3);
  }

  lemma SameMoved(s: State, d: State, current: Current)
    requires s.valsets == d.valsets && s.latest == d.latest
    ensures current.Set? ==> (Moved(s, current.members) <==> Moved(d, current.members))
  {
    hide Drift;
  }

  lemma StoredAreCreated(s: State)
    requires Inv(s)
    ensures forall n :: n in s.valsets ==> n in s.created && s.created[n] == s.valsets[n]
  {
  }

  /** A block that stores a new valset over an older one without anybody unbonding finds a coalition that moved by 2.5%. */
  lemma NewValsetHasAReason(s: State, b: BlockInput, s': State) returns (coalition: set<EthAddress>)
    requires Inv(s) && !s.halted && EndBlock(s, b, s') && !s'.halted
    requires s'.latest == s.latest + 1 && s.latest > 0 && !b.unbonding
    ensures s.latest in s.valsets && b.current.Set?
    ensures var now, before := Power(b.current.members, coalition), Power(s.valsets[s.latest].members, coalition);
      40 * (now - before) > 4294967295 || 40 * (before - now) > 4294967295
  {
    hide Inv, EndBlock, Power, Drift;
    BlockExactly(s, b, s');
    var newest := s.valsets[s.latest].members;
    coalition := DriftHasWitness(b.current.members, newest, b.current.members.Keys + newest.Keys);
  }
}
