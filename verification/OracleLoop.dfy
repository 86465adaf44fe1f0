/**
The Ethereum oracle as a state machine. Each read of the chain is a step of its own, so claims may land late,
governance may roll the validator's nonce back and the process may crash between any two reads.
 */
module OracleLoop {
  import opened Claims
  import opened History

  /** Final Ethereum history: `blocks[k - 1]` is the block of event `k`, `safe` the newest final block. */
  datatype Eth = Eth(safe: nat, blocks: seq<nat>)

  ghost predicate GoodEth(eth: Eth) {
    && (forall i, j :: 0 <= i < j < |eth.blocks| ==> eth.blocks[i] <= eth.blocks[j])
    && (forall i :: 0 <= i < |eth.blocks| ==> eth.blocks[i] <= eth.safe)
  }

  function Max(a: nat, b: nat): nat {
    if a < b then b else a
  }

  function Min(a: nat, b: nat): nat {
    if a < b then a else b
  }

  /** How many events lie in blocks up to `b`. */
  function Count(blocks: seq<nat>, b: nat): nat {
    if blocks == [] || blocks[0] > b then 0 else 1 + Count(blocks[1..], b)
  }

  function CountBelow(blocks: seq<nat>, b: nat): nat {
    if b == 0 then 0 else Count(blocks, b - 1)
  }

  lemma {:induction false} CountSplits(blocks: seq<nat>, b: nat)
    requires forall i, j :: 0 <= i < j < |blocks| ==> blocks[i] <= blocks[j]
    ensures Count(blocks, b) <= |blocks|
    ensures forall i :: 0 <= i < |blocks| ==> (blocks[i] <= b <==> i < Count(blocks, b))
  {
    if blocks != [] && blocks[0] <= b {
      CountSplits(blocks[1..], b);
      assert forall i :: 1 <= i < |blocks| ==> blocks[i] == blocks[1..][i - 1];
    }
  }

  lemma CountBelowSplits(blocks: seq<nat>, b: nat)
    requires forall i, j :: 0 <= i < j < |blocks| ==> blocks[i] <= blocks[j]
    ensures CountBelow(blocks, b) <= |blocks|
    ensures forall i :: 0 <= i < |blocks| ==> (blocks[i] < b <==> i < CountBelow(blocks, b))
  {
    if b > 0 {
      CountSplits(blocks, b - 1);
    }
  }

  lemma {:induction false} CountMonotone(blocks: seq<nat>, b: nat, c: nat)
    requires b <= c
    ensures Count(blocks, b) <= Count(blocks, c) <= |blocks|
  {
    if blocks != [] {
      CountMonotone(blocks[1..], b, c);
    }
  }

  lemma CountOrder(blocks: seq<nat>, b: nat, c: nat)
    requires b <= c
    ensures CountBelow(blocks, b) <= CountBelow(blocks, c) <= Count(blocks, c) <= |blocks|
  {
    if c > 0 {
      CountMonotone(blocks, if b > 0 then b - 1 else 0, c - 1);
      CountMonotone(blocks, c - 1, c);
    } else {
      CountMonotone(blocks, 0, 0);
    }
  }

  lemma {:induction false} CountIgnoresLater(blocks: seq<nat>, more: seq<nat>, b: nat)
    requires forall i :: 0 <= i < |more| ==> more[i] > b
    ensures Count(blocks + more, b) == Count(blocks, b)
  {
    if blocks == [] {
      assert blocks + more == more;
    } else {
      assert (blocks + more)[1..] == blocks[1..] + more;
      CountIgnoresLater(blocks[1..], more, b);
    }
  }

  /** The searched range reaches as far as the safe block and the window allow. */
  function Clamp(start: nat, safe: nat): (latest: nat)
    ensures start <= safe ==> start <= latest <= safe && latest - start <= 5000 && (latest == safe || latest == start + 5000)
    ensures safe < start ==> latest == safe
  {
    if safe > start && safe - start > BLOCKS_TO_SEARCH then start + BLOCKS_TO_SEARCH else safe
  }

  /** The events found are those with nonces in `(Lo, Hi]`. */
  function Lo(blocks: seq<nat>, start: nat, nonce: nat): nat {
    Max(nonce, CountBelow(blocks, start))
  }

  function Hi(blocks: seq<nat>, latest: nat): nat {
    Count(blocks, latest)
  }

  // ---------------------------------------------------------------------------------------------
  // The machine

  datatype Pc =
    | Restart
    | Top
    | Resync
    | Look
    | Filter(latest: nat)
    | Confirm(before: nat, lo: nat, hi: nat)

  /** A transaction claiming the events `first..last`. */
  datatype Tx = Tx(first: nat, last: nat)

  /**
  `nonce` is the validator's nonce on the chain and `accepted` the claims taken from it since the last rollback.
  `block` and `event` are the loop's last checked block and event. `guard` is history only: the cursor may
  have passed events up to that nonce and no others.
   */
  datatype State = State(
    eth: Eth, nonce: nat, accepted: seq<nat>, sent: set<Tx>, pc: Pc, block: nat, event: nat, guard: nat)

  /**
  `Land` delivers a sent transaction at any later time. `Lift` raises the nonce of a validator that has not
  voted, which follows the observed nonce. A crash or a panic ends the process, which is then started again.
   */
  datatype Step =
    | EthAdvance(safe: nat, more: seq<nat>)
    | Land(tx: Tx)
    | Lift(to: nat)
    | Rollback(to: nat)
    | Crash
    | Start
    | ReadNonce
    | DoResync
    | ReadLogs
    | Match
    | Recheck
    | Fail

  /** The event to resume at: the last one claimed, or the deployment. */
  function Resumed(nonce: nat): (k: nat)
    ensures k == nonce || (nonce == 0 && k == 1)
    ensures k > 0
  {
    if nonce == 0 then 1 else nonce
  }

  function Range(first: nat, last: nat): seq<nat> {
    if first > last then [] else seq(last - first + 1, i => first + i)
  }

  /** Records a successful check. */
  function Finish(s: State, block: nat, nonce: nat): State {
    s.(pc := Top, block := block, event := Max(s.event, nonce), guard := Max(s.guard, nonce))
  }

  ghost predicate Enabled(s: State, step: Step) {
    match step
    case EthAdvance(safe, more) =>
      && s.eth.safe <= safe
      && (forall i, j :: 0 <= i < j < |more| ==> more[i] <= more[j])
      && (forall i :: 0 <= i < |more| ==> s.eth.safe < more[i] <= safe)
    case Land(tx) => tx in s.sent
    case Lift(to) => s.accepted == [] && s.nonce < to
    case Rollback(to) => to < s.nonce
    case Crash => true
    case Start => s.pc.Restart?
    case ReadNonce => s.pc.Top?
    case DoResync => s.pc.Resync?
    case ReadLogs => s.pc.Look?
    case Match => s.pc.Filter?
    case Recheck => s.pc.Confirm?
    case Fail => s.pc.Look? || s.pc.Filter? || s.pc.Confirm?
  }

  function Next(s: State, step: Step): State {
    match step
    case EthAdvance(safe, more) => s.(eth := Eth(safe, s.eth.blocks + more))
    case Land(tx) =>
      if tx.first == s.nonce + 1 then s.(nonce := tx.last, accepted := s.accepted + Range(tx.first, tx.last)) else s
    case Lift(to) => s.(nonce := to)
    case Rollback(to) => s.(nonce := to, accepted := [])
    case Crash => s.(pc := Restart)
    case Start =>
      var k := Resumed(s.nonce);
      if k <= |s.eth.blocks| then s.(pc := Top, block := s.eth.blocks[k - 1], event := 0, guard := k - 1) else s
    case ReadNonce =>
      if s.nonce < s.event then s.(pc := Resync, event := s.nonce) else s.(pc := Look)
    case DoResync =>
      var k := Resumed(s.nonce);
      if k <= |s.eth.blocks| then s.(pc := Look, block := s.eth.blocks[k - 1], guard := Max(s.event, k - 1))
      else s.(pc := Restart)
    case ReadLogs => s.(pc := Filter(Clamp(s.block, s.eth.safe)))
    case Match => if s.pc.Filter? then Matched(s, s.pc.latest) else s
    case Recheck => if s.pc.Confirm? then Rechecked(s, s.pc.before, s.pc.lo, s.pc.hi) else s
    case Fail => s.(pc := Top)
  }

  function Matched(s: State, latest: nat): State {
    var lo, hi := Lo(s.eth.blocks, s.block, s.nonce), Hi(s.eth.blocks, latest);
    if lo >= hi then Finish(s, latest, s.nonce)
    else s.(pc := Confirm(s.nonce, lo, hi), sent := s.sent + Sends(s, Match))
  }

  /** What a step sends. */
  function Sends(s: State, step: Step): set<Tx> {
    if step.Match? && s.pc.Filter? then
      var lo, hi := Lo(s.eth.blocks, s.block, s.nonce), Hi(s.eth.blocks, s.pc.latest);
      if lo >= hi then {} else {Tx(lo + 1, Min(hi, lo + MAX_ORACLE_MESSAGES))}
    else {}
  }

  function Rechecked(s: State, before: nat, lo: nat, hi: nat): State {
    if s.nonce == before then s.(pc := Top)
    else if lo < s.nonce <= hi && s.nonce <= |s.eth.blocks| then Finish(s, s.eth.blocks[s.nonce - 1], s.nonce)
    else s.(pc := Restart)
  }

  /** What the world may do to the loop: history grows, the nonce is moved, the process dies, a read fails. */
  lemma WorldMoves(s: State, safe: nat, more: seq<nat>, to: nat)
    ensures Next(s, EthAdvance(safe, more)) == s.(eth := Eth(safe, s.eth.blocks + more))
    ensures Next(s, Lift(to)) == s.(nonce := to) && Next(s, Rollback(to)) == s.(nonce := to, accepted := [])
    ensures Next(s, Crash) == s.(pc := Restart) && Next(s, Fail) == s.(pc := Top)
  {
  }

  // ---------------------------------------------------------------------------------------------
  // The cursor

  /** How many events the cursor has passed. */
  function Passed(s: State): nat {
    CountBelow(s.eth.blocks, s.block)
  }

  /** No event above `nonce` lies before the cursor. */
  ghost predicate NotPassed(blocks: seq<nat>, block: nat, nonce: nat) {
    forall i :: nonce <= i < |blocks| ==> block <= blocks[i]
  }

  /** The loop has a cursor it will use. */
  predicate Running(s: State) {
    !s.pc.Restart? && !s.pc.Resync?
  }

  ghost predicate GoodPc(s: State) {
    match s.pc
    case Filter(latest) => s.block <= latest <= s.eth.safe
    case Confirm(before, lo, hi) => before <= lo <= hi <= |s.eth.blocks| && Passed(s) <= lo
    case _ => true
  }

  ghost predicate GoodCursor(s: State) {
    s.event <= s.guard && s.block <= s.eth.safe && NotPassed(s.eth.blocks, s.block, s.guard)
  }

  ghost predicate Inv(s: State) {
    && GoodEth(s.eth)
    && (Running(s) ==> GoodCursor(s))
    && GoodPc(s)
    && (forall tx :: tx in s.sent ==> 1 <= tx.first <= tx.last)
  }

  lemma PassedUpToGuard(s: State)
    requires Inv(s) && Running(s)
    ensures CountBelow(s.eth.blocks, s.block) <= s.guard
  {
    CountBelowSplits(s.eth.blocks, s.block);
    assert s.guard < |s.eth.blocks| ==> s.block <= s.eth.blocks[s.guard];
  }

  lemma PassedStays(s: State, safe: nat, more: seq<nat>)
    requires GoodEth(s.eth) && s.block <= s.eth.safe && Enabled(s, EthAdvance(safe, more))
    ensures Passed(Next(s, EthAdvance(safe, more))) == Passed(s)
  {
    if s.block > 0 {
      CountIgnoresLater(s.eth.blocks, more, s.block - 1);
    }
  }

  lemma AdvanceKeepsInv(s: State, safe: nat, more: seq<nat>)
    requires Inv(s) && Enabled(s, EthAdvance(safe, more))
    ensures Inv(Next(s, EthAdvance(safe, more)))
  {
    var all := s.eth.blocks + more;
    assert GoodEth(Eth(safe, all));
    assert NotPassed(s.eth.blocks, s.block, s.guard) && s.block <= s.eth.safe ==> NotPassed(all, s.block, s.guard);
    if Running(s) {
      PassedStays(s, safe, more);
    }
  }

  lemma MatchKeepsInv(s: State)
    requires Inv(s) && s.pc.Filter?
    ensures Inv(Matched(s, s.pc.latest))
  {
    CountSplits(s.eth.blocks, s.pc.latest);
    CountBelowSplits(s.eth.blocks, s.block);
  }

  lemma StepKeepsInv(s: State, step: Step)
    requires Inv(s) && Enabled(s, step)
    ensures Inv(Next(s, step))
  {
    hide Matched;
    match step
    case EthAdvance(safe, more) => AdvanceKeepsInv(s, safe, more);
    case Match => MatchKeepsInv(s);
    case _ =>
  }

  /** States linked by enabled steps. */
  ghost predicate Continues(states: seq<State>, steps: seq<Step>) {
    && |states| == |steps| + 1
    && forall i :: 0 <= i < |steps| ==> Enabled(states[i], steps[i]) && states[i + 1] == Next(states[i], steps[i])
  }

  ghost predicate IsRun(states: seq<State>, steps: seq<Step>) {
    && Continues(states, steps)
    && GoodEth(states[0].eth) && states[0].pc.Restart? && states[0].sent == {} && states[0].accepted == []
  }

  lemma {:induction false} ContinuationKeepsInv(states: seq<State>, steps: seq<Step>, i: nat)
    requires Continues(states, steps) && Inv(states[0]) && i < |states|
    ensures Inv(states[i])
  {
    hide Inv, Next, Enabled;
    if i > 0 {
      ContinuationKeepsInv(states, steps, i - 1);
      assert states[i - 1 + 1] == Next(states[i - 1], steps[i - 1]);
      StepKeepsInv(states[i - 1], steps[i - 1]);
    }
  }

  lemma EveryRunKeepsInv(states: seq<State>, steps: seq<Step>, i: nat)
    requires IsRun(states, steps) && i < |states|
    ensures Inv(states[i])
  {
    ContinuationKeepsInv(states, steps, i);
  }

  // ---------------------------------------------------------------------------------------------
  // Without rollbacks nothing is ever skipped

  /** What has been passed has been claimed. */
  ghost predicate Ready(s: State) {
    Running(s) ==> Passed(s) <= s.nonce
  }

  lemma ReadyIsNotPassed(s: State)
    requires Inv(s) && Running(s)
    ensures Ready(s) <==> NotPassed(s.eth.blocks, s.block, s.nonce)
  {
    CountBelowSplits(s.eth.blocks, s.block);
    if Passed(s) > s.nonce {
      assert s.eth.blocks[s.nonce] < s.block;
    }
  }

  /** Nothing but a rollback takes a ready loop out of step, and what it sends starts at the next event. */
  lemma StepKeepsReady(s: State, step: Step)
    requires Inv(s) && Ready(s) && Enabled(s, step) && !step.Rollback?
    ensures Ready(Next(s, step))
    ensures forall tx :: tx in Sends(s, step) ==> tx.first == s.nonce + 1
  {
    hide Count, CountBelow;
    match step
    case EthAdvance(safe, more) =>
      if Running(s) {
        PassedStays(s, safe, more);
      }
    case Start => ResumedIsReady(s);
    case DoResync => ResumedIsReady(s);
    case Match => CountOrder(s.eth.blocks, s.block, s.pc.latest);
    case Recheck =>
      if s.nonce > 0 {
        NonceIsReady(s, s.nonce);
      }
    case _ =>
  }

  /** Before the block of event `k` lie at most the events before it. */
  lemma NonceIsReady(s: State, k: nat)
    requires GoodEth(s.eth) && k > 0
    ensures k <= |s.eth.blocks| ==> CountBelow(s.eth.blocks, s.eth.blocks[k - 1]) <= k - 1
  {
    if k <= |s.eth.blocks| {
      CountBelowSplits(s.eth.blocks, s.eth.blocks[k - 1]);
    }
  }

  lemma ResumedIsReady(s: State)
    requires GoodEth(s.eth)
    ensures Resumed(s.nonce) <= |s.eth.blocks| ==> CountBelow(s.eth.blocks, s.eth.blocks[Resumed(s.nonce) - 1]) <= s.nonce
  {
    NonceIsReady(s, Resumed(s.nonce));
  }

  /** From a ready state, in every continuation without rollbacks. */
  lemma {:induction false} ReadyContinues(states: seq<State>, steps: seq<Step>, i: nat)
    requires Continues(states, steps) && Inv(states[0]) && Ready(states[0]) && i < |states|
    requires forall k :: 0 <= k < |steps| ==> !steps[k].Rollback?
    ensures Ready(states[i])
    ensures i < |steps| ==> forall tx :: tx in Sends(states[i], steps[i]) ==> tx.first == states[i].nonce + 1
  {
    hide Inv, Next, Enabled, Ready;
    if i > 0 {
      ReadyContinues(states, steps, i - 1);
      ContinuationKeepsInv(states, steps, i - 1);
      assert states[i - 1 + 1] == Next(states[i - 1], steps[i - 1]);
      StepKeepsReady(states[i - 1], steps[i - 1]);
    }
    if i < |steps| {
      ContinuationKeepsInv(states, steps, i);
      assert states[i + 1] == Next(states[i], steps[i]);
      StepKeepsReady(states[i], steps[i]);
    }
  }

  /**
  In a run without rollbacks the cursor never passes the first unclaimed event, and every transaction sent
  starts right at that event.
   */
  lemma NeverSkips(states: seq<State>, steps: seq<Step>, i: nat)
    requires IsRun(states, steps) && i < |states|
    requires forall k :: 0 <= k < |steps| ==> !steps[k].Rollback?
    ensures Running(states[i]) ==> NotPassed(states[i].eth.blocks, states[i].block, states[i].nonce)
    ensures i < |steps| ==> forall tx :: tx in Sends(states[i], steps[i]) ==> tx.first == states[i].nonce + 1
  {
    ReadyContinues(states, steps, i);
    EveryRunKeepsInv(states, steps, i);
    if Running(states[i]) {
      ReadyIsNotPassed(states[i]);
    }
  }

  /** The claims taken from the validator are consecutive and end at its nonce. */
  ghost predicate InSequence(s: State) {
    |s.accepted| <= s.nonce && forall i :: 0 <= i < |s.accepted| ==> s.accepted[i] == s.nonce - |s.accepted| + i + 1
  }

  lemma StepKeepsSequence(s: State, step: Step)
    requires Inv(s) && InSequence(s) && Enabled(s, step)
    ensures InSequence(Next(s, step))
    ensures !step.Rollback? && !step.Lift? ==> Next(s, step).nonce - |Next(s, step).accepted| == s.nonce - |s.accepted|
  {
    hide GoodEth, GoodCursor, GoodPc, Matched;
    var s' := Next(s, step);
    if step.Land? && s' != s {
      var more := Range(step.tx.first, step.tx.last);
      assert |more| == step.tx.last - s.nonce;
      assert s'.accepted == s.accepted + more;
    }
    MatchAcceptsNothing(s);
  }

  lemma MatchAcceptsNothing(s: State)
    ensures s.pc.Filter? ==> Matched(s, s.pc.latest).nonce == s.nonce && Matched(s, s.pc.latest).accepted == s.accepted
  {
  }

  /** Claims are accepted in order in every run; without rollbacks and lifts they follow the nonce the run began with. */
  lemma {:induction false} AcceptedInOrder(states: seq<State>, steps: seq<Step>, i: nat)
    requires IsRun(states, steps) && i < |states|
    ensures InSequence(states[i])
    ensures (forall k :: 0 <= k < i ==> !steps[k].Rollback? && !steps[k].Lift?) ==>
      states[i].nonce - |states[i].accepted| == states[0].nonce
  {
    hide Inv, Next, Enabled;
    if i > 0 {
      AcceptedInOrder(states, steps, i - 1);
      EveryRunKeepsInv(states, steps, i - 1);
      assert states[i - 1 + 1] == Next(states[i - 1], steps[i - 1]);
      StepKeepsSequence(states[i - 1], steps[i - 1]);
    }
  }

  // ---------------------------------------------------------------------------------------------
  // What a rollback leads to

  /** An unclaimed event lies before the cursor and the recorded event does not give it away. */
  ghost predicate Lost(s: State) {
    Running(s) && s.event <= s.nonce < Passed(s)
  }

  /** The chain's nonce is below the recorded event. */
  ghost predicate Alarmed(s: State) {
    Running(s) && s.nonce < s.event
  }

  /** Landing now, the step would have a transaction accepted that was sent before. */
  ghost predicate LandsOlder(s: State, step: Step, before: set<Tx>) {
    step.Land? && step.tx in before && step.tx.first == s.nonce + 1
  }

  /**
  The process goes on, and the chain's nonce is changed by nothing but transactions the loop sends from now on: no
  rollback, no lift, and no older transaction is accepted.
   */
  ghost predicate Undisturbed(states: seq<State>, steps: seq<Step>) {
    && Continues(states, steps)
    && (forall i :: 0 <= i < |states| ==> !states[i].pc.Restart?)
    && (forall i :: 0 <= i < |steps| ==> !steps[i].Rollback? && !steps[i].Lift? && !steps[i].Crash?)
    && (forall i :: 0 <= i < |steps| ==> !LandsOlder(states[i], steps[i], states[0].sent))
  }

  /** Nothing sent since could be accepted now. */
  ghost predicate NothingNew(s: State, before: set<Tx>) {
    forall tx :: tx in s.sent - before ==> tx.first != s.nonce + 1
  }

  /** While unclaimed events lie before the cursor, what is sent starts beyond the next event and the nonce stays. */
  lemma AheadStep(s: State, step: Step, before: set<Tx>)
    requires Inv(s) && Running(s) && s.nonce < Passed(s) && NothingNew(s, before) && Enabled(s, step)
    requires !step.Rollback? && !step.Lift? && !step.Crash? && !LandsOlder(s, step, before) && !Next(s, step).pc.Restart?
    ensures var s' := Next(s, step);
      && s'.nonce == s.nonce && NothingNew(s', before)
      && (forall tx :: tx in Sends(s, step) ==> tx.first > s.nonce + 1)
      && (Running(s') ==> s'.nonce < Passed(s') && Max(s.event, s.nonce) == Max(s'.event, s'.nonce))
      && (s'.pc.Resync? <==> step.ReadNonce? && s.nonce < s.event)
  {
    hide Count, CountBelow;
    match step
    case EthAdvance(safe, more) => PassedStays(s, safe, more);
    case Match => CountOrder(s.eth.blocks, s.block, s.pc.latest);
    case _ =>
  }

  /** A lost loop goes on lost: it never resyncs, the nonce stays, and nothing it sends starts at the next event. */
  lemma {:induction false} LostStays(states: seq<State>, steps: seq<Step>, i: nat)
    requires Undisturbed(states, steps) && Inv(states[0]) && Lost(states[0]) && i < |states|
    ensures Lost(states[i]) && !states[i].pc.Resync? && states[i].nonce == states[0].nonce && NothingNew(states[i], states[0].sent)
    ensures i < |steps| ==> forall tx :: tx in Sends(states[i], steps[i]) ==> tx.first > states[0].nonce + 1
  {
    hide Inv, Next, Enabled, NothingNew, LandsOlder, Passed, Sends;
    if i > 0 {
      LostStays(states, steps, i - 1);
      ContinuationKeepsInv(states, steps, i - 1);
      assert states[i - 1 + 1] == Next(states[i - 1], steps[i - 1]);
      AheadStep(states[i - 1], steps[i - 1], states[0].sent);
    } else {
      NothingNewAtFirst(states[0]);
    }
    if i < |steps| {
      ContinuationKeepsInv(states, steps, i);
      assert states[i + 1] == Next(states[i], steps[i]);
      AheadStep(states[i], steps[i], states[0].sent);
    }
  }

  lemma NothingNewAtFirst(s: State)
    ensures NothingNew(s, s.sent)
  {
  }

  /** An alarmed loop that has passed unclaimed events resyncs at its next read of the nonce. */
  lemma {:induction false} AlarmIsHeard(states: seq<State>, steps: seq<Step>, i: nat)
    requires Undisturbed(states, steps) && Inv(states[0]) && Alarmed(states[0]) && Passed(states[0]) > states[0].nonce
    requires i < |steps| && forall k :: 0 <= k < i ==> !steps[k].ReadNonce?
    ensures states[i + 1].pc.Resync? <==> steps[i].ReadNonce?
    ensures !steps[i].ReadNonce? ==>
      Alarmed(states[i + 1]) && Passed(states[i + 1]) > states[i + 1].nonce && NothingNew(states[i + 1], states[0].sent)
  {
    hide Inv, Next, Enabled, NothingNew, LandsOlder, Passed, Sends;
    if i > 0 {
      AlarmIsHeard(states, steps, i - 1);
    } else {
      NothingNewAtFirst(states[0]);
    }
    ContinuationKeepsInv(states, steps, i);
    assert states[i + 1] == Next(states[i], steps[i]);
    AheadStep(states[i], steps[i], states[0].sent);
  }

  /** Whatever the chain's nonce has become by then, a resync puts the cursor where nothing unclaimed lies before it. */
  lemma ResyncIsReady(s: State)
    requires Inv(s) && s.pc.Resync?
    ensures Ready(Next(s, DoResync))
  {
    ResumedIsReady(s);
  }

  /**
  A rollback of a running loop to `to` goes unnoticed exactly when `to` is at or above the recorded event and below
  the number of events passed. Then in every undisturbed continuation the loop never resyncs, the nonce stays and no
  transaction starting at the next event is ever sent. Otherwise either every later transaction starts at the next
  event, whatever happens short of another rollback, or the next read of the nonce resyncs.
   */
  lemma RollbackDecided(s: State, to: nat, states: seq<State>, steps: seq<Step>, i: nat)
    requires Inv(s) && Running(s) && to < s.nonce && i < |steps|
    requires Continues(states, steps) && states[0] == Next(s, Rollback(to))
    ensures s.event <= to < Passed(s) && Undisturbed(states, steps) ==>
      && !states[i + 1].pc.Resync? && states[i + 1].nonce == to
      && (forall tx :: tx in Sends(states[i], steps[i]) ==> tx.first > to + 1)
    ensures Passed(s) <= to && (forall k :: 0 <= k < |steps| ==> !steps[k].Rollback?) ==>
      forall tx :: tx in Sends(states[i], steps[i]) ==> tx.first == states[i].nonce + 1
    ensures to < s.event && to < Passed(s) && Undisturbed(states, steps) && (forall k :: 0 <= k < i ==> !steps[k].ReadNonce?) ==>
      (states[i + 1].pc.Resync? <==> steps[i].ReadNonce?)
  {
    hide GoodEth, NotPassed, CountBelow, Sends, Enabled;
    if Passed(s) <= to {
      if forall k :: 0 <= k < |steps| ==> !steps[k].Rollback? {
        ReadyContinues(states, steps, i);
      }
    } else if Undisturbed(states, steps) {
      if s.event <= to {
        LostStays(states, steps, i);
        LostStays(states, steps, i + 1);
      } else if forall k :: 0 <= k < i ==> !steps[k].ReadNonce? {
        AlarmIsHeard(states, steps, i);
      }
    }
  }

  // ---------------------------------------------------------------------------------------------
  // Staying in step

  /** The recorded event accounts for everything the cursor has passed. */
  ghost predicate Synced(s: State) {
    Running(s) && s.event == s.guard
  }

  /** A synced loop is either alarmed or ready, so no rollback can go unnoticed. */
  lemma SyncedIsNeverLost(s: State)
    requires Inv(s) && Synced(s)
    ensures Alarmed(s) || Ready(s)
    ensures !Lost(s)
  {
    PassedUpToGuard(s);
  }

  /** In any run, a lost loop has not recorded a nonce as large as what its cursor has passed. */
  lemma LostOnlyBeforeRecording(states: seq<State>, steps: seq<Step>, i: nat)
    requires IsRun(states, steps) && i < |states| && Lost(states[i])
    ensures states[i].event <= states[i].nonce < states[i].guard
  {
    EveryRunKeepsInv(states, steps, i);
    PassedUpToGuard(states[i]);
  }

  lemma SyncedStep(s: State, step: Step)
    requires Inv(s) && Enabled(s, step) && !s.pc.Restart? && !Next(s, step).pc.Restart?
    ensures Synced(s) ==> Synced(Next(s, step)) || Next(s, step).pc.Resync?
    ensures s.pc.Resync? && !step.DoResync? ==> Next(s, step).pc.Resync?
    ensures s.pc.Resync? && step.DoResync? ==> (Synced(Next(s, step)) <==> s.nonce <= s.event + 1)
  {
  }

  /**
  From a synced state, up to the next restart, the loop is synced or in a resync all the time if and only if no resync
  finds that the nonce has risen by more than one since the rollback was noticed.
   */
  lemma {:induction false} SyncedStaysIff(states: seq<State>, steps: seq<Step>, i: nat)
    requires Continues(states, steps) && Inv(states[0]) && Synced(states[0]) && i < |states|
    requires forall k :: 0 <= k < |states| ==> !states[k].pc.Restart?
    ensures (forall k :: 0 <= k <= i ==> Synced(states[k]) || states[k].pc.Resync?)
        <==> (forall k :: 0 <= k < i && steps[k].DoResync? ==> states[k].nonce <= states[k].event + 1)
  {
    hide Inv, Next, Enabled;
    if i > 0 {
      SyncedStaysIff(states, steps, i - 1);
      ContinuationKeepsInv(states, steps, i - 1);
      assert states[i - 1 + 1] == Next(states[i - 1], steps[i - 1]);
      SyncedStep(states[i - 1], steps[i - 1]);
      if steps[i - 1].DoResync? {
        ResyncEnds(states[i - 1], steps[i - 1]);
      }
    }
  }

  lemma ResyncEnds(s: State, step: Step)
    requires Enabled(s, step) && step.DoResync?
    ensures s.pc.Resync? && !Next(s, step).pc.Resync?
  {
  }

  /** As long as no rollback has come since the start, the cursor has passed claimed events only. */
  ghost predicate Behind(s: State) {
    !s.pc.Resync? && (Running(s) ==> s.guard <= s.nonce)
  }

  lemma {:induction false} BehindUntilRollback(states: seq<State>, steps: seq<Step>, a: nat, j: nat)
    requires IsRun(states, steps) && a <= j < |states| && states[a].pc.Restart?
    requires forall k :: a <= k < j ==> !steps[k].Rollback?
    ensures Behind(states[j])
    decreases j
  {
    hide Inv, Next, Enabled;
    if a < j {
      BehindUntilRollback(states, steps, a, j - 1);
      EveryRunKeepsInv(states, steps, j - 1);
      assert states[j - 1 + 1] == Next(states[j - 1], steps[j - 1]);
      StepKeepsBehind(states[j - 1], steps[j - 1]);
    }
  }

  lemma StepKeepsBehind(s: State, step: Step)
    requires Inv(s) && Behind(s) && Enabled(s, step) && !step.Rollback?
    ensures Behind(Next(s, step))
  {
    hide GoodEth, NotPassed, GoodPc, Count, CountBelow;
  }

  /** The step ends an iteration that records a nonce: nothing new was found, or what was sent has been claimed. */
  ghost predicate Records(s: State, step: Step) {
    && Next(s, step).pc.Top?
    && (step.Match? || (step.Recheck? && s.pc.Confirm? && s.nonce != s.pc.before))
  }

  lemma RecordingSyncs(s: State, step: Step)
    requires Inv(s) && Enabled(s, step) && Behind(s) && Records(s, step)
    ensures Synced(Next(s, step)) && Next(s, step).event == s.nonce
  {
  }

  /**
  In every run, once an iteration has recorded a nonce and no rollback came between the process's start and that, no
  rollback goes unnoticed up to the next restart, provided no resync finds the nonce risen by more than one: the loop
  is resyncing, alarmed or ready.
   */
  lemma SafeOnceRecorded(states: seq<State>, steps: seq<Step>, a: nat, j: nat, i: nat)
    requires IsRun(states, steps) && a <= j < i < |states| && states[a].pc.Restart?
    requires (forall k :: a <= k < j ==> !steps[k].Rollback?) && Records(states[j], steps[j])
    requires forall k :: j < k <= i ==> !states[k].pc.Restart?
    requires forall k :: j < k < i && steps[k].DoResync? ==> states[k].nonce <= states[k].event + 1
    ensures states[i].pc.Resync? || (Synced(states[i]) && (Alarmed(states[i]) || Ready(states[i])))
  {
    hide Enabled, Inv, Records;
    BehindUntilRollback(states, steps, a, j);
    EveryRunKeepsInv(states, steps, j);
    EveryRunKeepsInv(states, steps, j + 1);
    assert states[j + 1] == Next(states[j], steps[j]);
    RecordingSyncs(states[j], steps[j]);
    var rest, after := states[j + 1..i + 1], steps[j + 1..i];
    assert Continues(rest, after) && rest[0] == states[j + 1];
    SyncedStaysIff(rest, after, i - j - 1);
    assert rest[i - j - 1] == states[i];
    EveryRunKeepsInv(states, steps, i);
    if !states[i].pc.Resync? {
      SyncedIsNeverLost(states[i]);
    }
  }
}
