/** The oracle's code: one check for new events, and one iteration of the loop, given what each read returned. */
module Oracle {
  import opened Claims
  import opened History
  import opened Options
  import opened Sorting
  import Machine = OracleLoop

  datatype Checked = Ok(block: nat, event: nat) | Err | Panic

  function Blocks(logs: seq<Log>): seq<nat> {
    seq(|logs|, i requires 0 <= i < |logs| => logs[i].block)
  }

  ghost predicate Readable(logs: seq<Log>, from: nat, to: nat) {
    forall i :: 0 <= i < |logs| && from <= logs[i].block <= to ==> logs[i].parsed.Some?
  }

  /** What a check yields: `last` is the nonce read before filtering, `after` the one read after sending. */
  ghost function CheckResult(logs: seq<Log>, safe: nat, start: nat, last: nat, after: nat): Checked {
    var latest := Machine.Clamp(start, safe);
    var lo, hi := Machine.Lo(Blocks(logs), start, last), Machine.Hi(Blocks(logs), latest);
    if !Readable(logs, start, latest) then Err
    else if lo >= hi then Ok(latest, last)
    else if after == last then Err
    else if lo < after <= hi && after <= |logs| then Ok(logs[after - 1].block, after)
    else Panic
  }

  const ALL_KINDS: set<Kind> := {SentToCosmos, BatchExecuted, Erc20Deployed, LogicCallExecuted, ValsetUpdated}

  /** Exactly the events of these kinds in the range that are newer than `last`, each once. */
  ghost predicate New(logs: seq<Log>, from: nat, to: nat, kinds: set<Kind>, last: nat, claims: seq<Claim>) {
    && DistinctNonces(claims)
    && (forall k :: 0 <= k < |claims| ==>
          claims[k].nonce == claims[k].event + 1 && last <= claims[k].event < |logs|
          && from <= logs[claims[k].event].block <= to && logs[claims[k].event].kind in kinds)
    && (forall i :: last <= i < |logs| && from <= logs[i].block <= to && logs[i].kind in kinds ==> Claim(i + 1, i) in claims)
  }

  lemma NewJoins(logs: seq<Log>, from: nat, to: nat, last: nat, k1: set<Kind>, c1: seq<Claim>, k2: set<Kind>,
        c2: seq<Claim>)
    requires New(logs, from, to, k1, last, c1) && New(logs, from, to, k2, last, c2) && k1 !! k2
    ensures New(logs, from, to, k1 + k2, last, c1 + c2)
  {
    forall i, j | 0 <= i < |c1| && 0 <= j < |c2|
      ensures c1[i].nonce != c2[j].nonce
    {
      assert logs[c1[i].event].kind in k1 && logs[c2[j].event].kind in k2;
    }
  }

  function ClaimsFor(found: seq<nat>, last: nat): seq<Claim> {
    if found == [] then []
    else
      var front, i := found[..|found| - 1], found[|found| - 1];
      ClaimsFor(front, last) + if i >= last then [Claim(i + 1, i)] else []
  }

  /** The claims for the found positions from `last` on, in order. */
  ghost predicate ClaimsOf(found: seq<nat>, last: nat, claims: seq<Claim>) {
    && InOrder(claims)
    && (forall k :: 0 <= k < |claims| ==> claims[k].nonce == claims[k].event + 1 && last <= claims[k].event && claims[k].event in found)
    && (forall k :: 0 <= k < |found| && last <= found[k] ==> Claim(found[k] + 1, found[k]) in claims)
  }

  lemma {:induction false} ClaimsForAll(found: seq<nat>, last: nat)
    requires Ascending(found)
    ensures ClaimsOf(found, last, ClaimsFor(found, last))
  {
    hide ClaimsOf;
    if found == [] {
      NoClaims(last);
    } else {
      var front, i := found[..|found| - 1], found[|found| - 1];
      ClaimsForAll(front, last);
      AddClaim(front, i, last, ClaimsFor(front, last));
      assert found == front + [i];
    }
  }

  lemma NoClaims(last: nat)
    ensures ClaimsOf([], last, [])
  {
  }

  lemma AddClaim(front: seq<nat>, i: nat, last: nat, claims: seq<Claim>)
    requires ClaimsOf(front, last, claims) && forall k :: 0 <= k < |front| ==> front[k] < i
    ensures ClaimsOf(front + [i], last, claims + if i >= last then [Claim(i + 1, i)] else [])
  {
    var more := claims + if i >= last then [Claim(i + 1, i)] else [];
    forall k | 0 <= k < |claims|
      ensures claims[k].nonce < i + 1 && claims[k].event in front + [i]
    {
      assert claims[k].event in front;
      var j :| 0 <= j < |front| && front[j] == claims[k].event;
      assert (front + [i])[j] == front[j];
    }
    forall k | 0 <= k < |front + [i]| && last <= (front + [i])[k]
      ensures Claim((front + [i])[k] + 1, (front + [i])[k]) in more
    {
      if k == |front| {
        assert more[|claims|] == Claim(i + 1, i);
      } else {
        assert Claim(front[k] + 1, front[k]) in claims;
      }
    }
  }

  lemma FoundIsNew(logs: seq<Log>, from: nat, to: nat, kind: Kind, last: nat, found: seq<nat>)
    requires Ascending(found) && forall i :: i in found <==> 0 <= i < |logs| && InWindow(logs[i], from, to, kind)
    ensures New(logs, from, to, {kind}, last, ClaimsFor(found, last))
  {
    ClaimsForAll(found, last);
    forall i | last <= i < |logs| && from <= logs[i].block <= to && logs[i].kind in {kind}
      ensures Claim(i + 1, i) in ClaimsFor(found, last)
    {
      assert i in found;
    }
  }

  /** Parses the events of one kind and drops those already claimed; `None` is a parse error. */
  method NewEvents(logs: seq<Log>, from: nat, to: nat, kind: Kind, last: nat) returns (r: Option<seq<Claim>>)
    requires GoodLogs(logs)
    ensures r.Some? <==> ReadableKind(logs, from, to, kind)
    ensures r.Some? ==> New(logs, from, to, {kind}, last, r.value)
  {
    hide New, InWindow, GoodLogs, ReadableKind;
    var found := CheckForEvents(logs, from, to, kind);
    FoundInLog(logs, from, to, kind, found);
    var claims: seq<Claim> := [];
    for k := 0 to |found|
      invariant forall j :: 0 <= j < k ==> logs[found[j]].parsed.Some?
      invariant claims == ClaimsFor(found[..k], last)
    {
      var i := found[k];
      assert found[..k + 1][..k] == found[..k];
      if logs[i].parsed.None? {
        return None;
      }
      var nonce := logs[i].parsed.value.eventNonce;
      if nonce > last {
        claims := claims + [Claim(nonce, i)];
      }
    }
    assert found[..|found|] == found;
    FoundIsNew(logs, from, to, kind, last, found);
    return Some(claims);
  }

  /** What a search finds: positions in the log with the nonce they should have, readable exactly when the kind is. */
  lemma FoundInLog(logs: seq<Log>, from: nat, to: nat, kind: Kind, found: seq<nat>)
    requires GoodLogs(logs) && forall i :: i in found <==> 0 <= i < |logs| && InWindow(logs[i], from, to, kind)
    ensures forall j :: 0 <= j < |found| ==>
      found[j] < |logs| && (logs[found[j]].parsed.Some? ==> logs[found[j]].parsed.value.eventNonce == found[j] + 1)
    ensures (forall j :: 0 <= j < |found| ==> logs[found[j]].parsed.Some?) <==> ReadableKind(logs, from, to, kind)
  {
    assert forall j :: 0 <= j < |found| ==> found[j] in found;
    forall i | 0 <= i < |logs| && InWindow(logs[i], from, to, kind)
      ensures i in found
    {
    }
  }

  method BlockForNonce(logs: seq<Log>, claims: seq<Claim>, nonce: nat) returns (r: Option<nat>)
    requires forall k :: 0 <= k < |claims| ==> claims[k].nonce == claims[k].event + 1 && claims[k].event < |logs|
    ensures r == if nonce > 0 && Claim(nonce, nonce - 1) in claims then Some(logs[nonce - 1].block) else None
  {
    for k := 0 to |claims|
      invariant nonce > 0 ==> Claim(nonce, nonce - 1) !in claims[..k]
    {
      if claims[k].nonce == nonce {
        assert claims[k] == Claim(nonce, nonce - 1);
        return Some(logs[claims[k].event].block);
      }
    }
    assert claims[..|claims|] == claims;
    return None;
  }

  lemma EveryKind(kind: Kind)
    ensures kind in ALL_KINDS
  {
    match kind
    case BatchExecuted =>
    case SentToCosmos =>
    case Erc20Deployed =>
    case LogicCallExecuted =>
    case ValsetUpdated =>
  }

  /** The new events of all kinds are those with nonces in `(Lo, Hi]`. */
  lemma NewRange(logs: seq<Log>, start: nat, latest: nat, last: nat, claims: seq<Claim>, i: nat)
    requires GoodLogs(logs) && New(logs, start, latest, ALL_KINDS, last, claims)
    ensures Claim(i + 1, i) in claims <==> Machine.Lo(Blocks(logs), start, last) <= i < Machine.Hi(Blocks(logs), latest)
    ensures Machine.Hi(Blocks(logs), latest) <= |logs|
  {
    Machine.CountSplits(Blocks(logs), latest);
    Machine.CountBelowSplits(Blocks(logs), start);
    var c := Claim(i + 1, i);
    if i < |logs| {
      assert Blocks(logs)[i] == logs[i].block;
      EveryKind(logs[i].kind);
    }
    if c in claims {
      var k :| 0 <= k < |claims| && claims[k] == c;
      assert claims[k].event == i;
    }
  }

  ghost predicate ReadableKind(logs: seq<Log>, from: nat, to: nat, kind: Kind) {
    forall i :: 0 <= i < |logs| && InWindow(logs[i], from, to, kind) ==> logs[i].parsed.Some?
  }

  lemma ReadableByKind(logs: seq<Log>, from: nat, to: nat)
    ensures Readable(logs, from, to) <==> forall kind :: kind in ALL_KINDS ==> ReadableKind(logs, from, to, kind)
  {
    forall i | 0 <= i < |logs| && from <= logs[i].block <= to
      ensures InWindow(logs[i], from, to, logs[i].kind) && logs[i].kind in ALL_KINDS
    {
      EveryKind(logs[i].kind);
    }
  }

  /** The message list sent for the new events: the unbroken range of the oldest ones, as long as it may be. */
  ghost predicate SentRange(sent: seq<Claim>, lo: nat, hi: nat) {
    && lo + |sent| == Machine.Min(hi, lo + MAX_ORACLE_MESSAGES)
    && forall i :: 0 <= i < |sent| ==> sent[i].nonce == lo + 1 + i
  }

  /** What a check sends: a range that starts right above `Lo` if something new was found. */
  ghost predicate SentFor(logs: seq<Log>, safe: nat, start: nat, last: nat, sent: seq<Claim>) {
    var latest := Machine.Clamp(start, safe);
    var lo, hi := Machine.Lo(Blocks(logs), start, last), Machine.Hi(Blocks(logs), latest);
    if Readable(logs, start, latest) && lo < hi then SentRange(sent, lo, hi) else sent == []
  }

  lemma RangeSent(logs: seq<Log>, start: nat, latest: nat, last: nat, claims: seq<Claim>, sent: seq<Claim>)
    requires GoodLogs(logs) && New(logs, start, latest, ALL_KINDS, last, claims)
    requires Oldest(claims, sent) && |sent| == if |claims| <= MAX_ORACLE_MESSAGES then |claims| else MAX_ORACLE_MESSAGES
    requires claims != []
    ensures var lo, hi := Machine.Lo(Blocks(logs), start, last), Machine.Hi(Blocks(logs), latest);
      lo < hi && SentRange(sent, lo, hi)
  {
    var lo, hi := Machine.Lo(Blocks(logs), start, last), Machine.Hi(Blocks(logs), latest);
    forall k | 0 <= k < |claims|
      ensures lo + 1 <= claims[k].nonce <= hi
    {
      assert claims[k] == Claim(claims[k].event + 1, claims[k].event);
      NewRange(logs, start, latest, last, claims, claims[k].event);
    }
    forall n | lo + 1 <= n <= hi
      ensures Covers(claims, n)
    {
      NewRange(logs, start, latest, last, claims, n - 1);
    }
    assert lo + 1 <= claims[0].nonce <= hi;
    CountRange(claims, lo, hi);
    forall i | 0 <= i < |sent|
      ensures sent[i].nonce == lo + 1 + i
    {
      UnbrokenRange(claims, sent, lo + 1, hi, i);
    }
  }

  ghost function Nonces(claims: seq<Claim>): set<nat> {
    set k | 0 <= k < |claims| :: claims[k].nonce
  }

  lemma {:induction false} NoncesCount(claims: seq<Claim>)
    requires DistinctNonces(claims)
    ensures |Nonces(claims)| == |claims|
  {
    if claims != [] {
      var front, last := claims[..|claims| - 1], claims[|claims| - 1];
      NoncesCount(front);
      assert claims == front + [last];
      assert Nonces(claims) == Nonces(front) + {last.nonce} by {
        forall n | n in Nonces(front)
          ensures n in Nonces(claims)
        {
          var k :| 0 <= k < |front| && front[k].nonce == n;
          assert claims[k].nonce == n;
        }
        assert claims[|claims| - 1].nonce == last.nonce;
      }
    } else {
      assert Nonces(claims) == {};
    }
  }

  lemma {:induction false} RangeCount(lo: nat, hi: nat, s: set<nat>)
    requires lo <= hi && forall n :: n in s <==> lo < n <= hi
    ensures |s| == hi - lo
    decreases hi
  {
    if lo < hi {
      assert hi in s;
      RangeCount(lo, hi - 1, s - {hi});
    } else {
      assert s == {};
    }
  }

  lemma CountRange(claims: seq<Claim>, lo: nat, hi: nat)
    requires DistinctNonces(claims) && lo <= hi
    requires forall k :: 0 <= k < |claims| ==> lo + 1 <= claims[k].nonce <= hi
    requires forall n :: lo + 1 <= n <= hi ==> Covers(claims, n)
    ensures |claims| == hi - lo
  {
    NoncesCount(claims);
    forall n
      ensures n in Nonces(claims) <==> lo < n <= hi
    {
      if lo < n <= hi {
        assert Covers(claims, n);
      }
    }
    RangeCount(lo, hi, Nonces(claims));
  }

  /** The new events of every kind, in the order the source lists them; `None` is a parse error. */
  method AllNewEvents(logs: seq<Log>, from: nat, to: nat, last: nat)
    returns (ok: bool, deposits: seq<Claim>, withdraws: seq<Claim>, deploys: seq<Claim>, calls: seq<Claim>, valsets: seq<Claim>)
    requires GoodLogs(logs)
    ensures ok <==> Readable(logs, from, to)
    ensures ok ==> New(logs, from, to, ALL_KINDS, last, deposits + withdraws + deploys + calls + valsets)
  {
    hide New, ReadableKind, Readable;
    ok, deposits, withdraws, deploys, calls, valsets := false, [], [], [], [], [];
    ReadableByKind(logs, from, to);
    var v := NewEvents(logs, from, to, ValsetUpdated, last);
    if v.None? {
      assert !ReadableKind(logs, from, to, ValsetUpdated);
      return;
    }
    var w := NewEvents(logs, from, to, BatchExecuted, last);
    if w.None? {
      assert !ReadableKind(logs, from, to, BatchExecuted);
      return;
    }
    var d := NewEvents(logs, from, to, SentToCosmos, last);
    if d.None? {
      assert !ReadableKind(logs, from, to, SentToCosmos);
      return;
    }
    var e := NewEvents(logs, from, to, Erc20Deployed, last);
    if e.None? {
      assert !ReadableKind(logs, from, to, Erc20Deployed);
      return;
    }
    var c := NewEvents(logs, from, to, LogicCallExecuted, last);
    if c.None? {
      assert !ReadableKind(logs, from, to, LogicCallExecuted);
      return;
    }
    ok, deposits, withdraws, deploys, calls, valsets := true, d.value, w.value, e.value, c.value, v.value;
    NewJoins(logs, from, to, last, {SentToCosmos}, deposits, {BatchExecuted}, withdraws);
    NewJoins(logs, from, to, last, {SentToCosmos} + {BatchExecuted}, deposits + withdraws, {Erc20Deployed}, deploys);
    NewJoins(logs, from, to, last, {SentToCosmos} + {BatchExecuted} + {Erc20Deployed}, deposits + withdraws + deploys, {LogicCallExecuted}, calls);
    NewJoins(logs, from, to, last, {SentToCosmos} + {BatchExecuted} + {Erc20Deployed} + {LogicCallExecuted},
      deposits + withdraws + deploys + calls, {ValsetUpdated}, valsets);
    assert {SentToCosmos} + {BatchExecuted} + {Erc20Deployed} + {LogicCallExecuted} + {ValsetUpdated} == ALL_KINDS;
  }

  /** The block of the event `nonce` if it is in one of the lists. */
  method BlockInLists(logs: seq<Log>, deposits: seq<Claim>, withdraws: seq<Claim>, deploys: seq<Claim>,
        calls: seq<Claim>, valsets: seq<Claim>, nonce: nat)
    returns (r: Option<nat>)
    requires var all := deposits + withdraws + deploys + calls + valsets;
      forall k :: 0 <= k < |all| ==> all[k].nonce == all[k].event + 1 && all[k].event < |logs|
    ensures var all := deposits + withdraws + deploys + calls + valsets;
      r == if nonce > 0 && Claim(nonce, nonce - 1) in all then Some(logs[nonce - 1].block) else None
  {
    ghost var all := deposits + withdraws + deploys + calls + valsets;
    Parts(deposits, withdraws, deploys, calls, valsets);
    r := BlockForNonce(logs, valsets, nonce);
    if r.None? {
      r := BlockForNonce(logs, deposits, nonce);
    }
    if r.None? {
      r := BlockForNonce(logs, withdraws, nonce);
    }
    if r.None? {
      r := BlockForNonce(logs, deploys, nonce);
    }
    if r.None? {
      r := BlockForNonce(logs, calls, nonce);
    }
  }

  lemma Parts(a: seq<Claim>, b: seq<Claim>, c: seq<Claim>, d: seq<Claim>, e: seq<Claim>)
    ensures forall x :: x in a + b + c + d + e <==> x in a || x in b || x in c || x in d || x in e
    ensures forall s: seq<Claim>, k | (s == a || s == b || s == c || s == d || s == e) && 0 <= k < |s| :: s[k] in a + b + c + d + e
  {
  }

  /**
  One check for events. When something new is found, the transaction sent claims an unbroken range of at most
  `MAX_ORACLE_MESSAGES` events starting right above `Lo`.
   */
  method CheckForNewEvents(logs: seq<Log>, safe: nat, start: nat, last: nat, after: nat)
    returns (r: Checked, sent: seq<Claim>)
    requires GoodLogs(logs)
    ensures r == CheckResult(logs, safe, start, last, after)
    ensures SentFor(logs, safe, start, last, sent)
  {
    hide GoodLogs, Readable, Machine.Lo, Machine.Hi, New, DistinctNonces, Oldest, SentRange;
    sent := [];
    var latest := if safe > start && safe - start > BLOCKS_TO_SEARCH then start + BLOCKS_TO_SEARCH else safe;
    var ok, deposits, withdraws, deploys, calls, valsets := AllNewEvents(logs, start, latest, last);
    if !ok {
      return Err, [];
    }
    ghost var all := deposits + withdraws + deploys + calls + valsets;
    NewFacts(logs, start, latest, last, all, after);
    if deposits == [] && withdraws == [] && deploys == [] && calls == [] && valsets == [] {
      return Ok(latest, last), [];
    }
    var msgs := SendEthereumClaims(deposits, withdraws, deploys, calls, valsets);
    RangeSent(logs, start, latest, last, all, msgs.value);
    sent := msgs.value;
    if after == last {
      return Err, sent;
    }
    var block := BlockInLists(logs, deposits, withdraws, deploys, calls, valsets, after);
    match block
    case Some(b) => r := Ok(b, after);
    case None => r := Panic;
  }

  lemma NewFacts(logs: seq<Log>, start: nat, latest: nat, last: nat, all: seq<Claim>, after: nat)
    requires GoodLogs(logs) && New(logs, start, latest, ALL_KINDS, last, all)
    ensures var lo, hi := Machine.Lo(Blocks(logs), start, last), Machine.Hi(Blocks(logs), latest);
      && (all == [] <==> lo >= hi)
      && hi <= |logs|
      && (after > 0 && Claim(after, after - 1) in all <==> lo < after <= hi)
    ensures DistinctNonces(all)
    ensures forall k :: 0 <= k < |all| ==> all[k].nonce == all[k].event + 1 && all[k].event < |logs|
  {
    var lo, hi := Machine.Lo(Blocks(logs), start, last), Machine.Hi(Blocks(logs), latest);
    NewRange(logs, start, latest, last, all, lo);
    if after > 0 {
      NewRange(logs, start, latest, last, all, after - 1);
    }
    if all != [] {
      assert all[0] == Claim(all[0].event + 1, all[0].event);
      NewRange(logs, start, latest, last, all, all[0].event);
    }
  }

  /**
  A check that succeeds has read every event between its start and the block it returns, and all of them are claimed.
  An event in the searched range that cannot be read makes it fail.
   */
  lemma CheckPassesNothing(logs: seq<Log>, safe: nat, start: nat, last: nat, after: nat, i: nat)
    requires GoodLogs(logs) && i < |logs| && start <= logs[i].block
    ensures match CheckResult(logs, safe, start, last, after)
      case Ok(block, event) => logs[i].block < block ==> i < event && logs[i].parsed.Some?
      case _ => true
    ensures logs[i].parsed.None? && logs[i].block <= Machine.Clamp(start, safe) ==> CheckResult(logs, safe, start, last, after).Err?
  {
    Machine.CountSplits(Blocks(logs), Machine.Clamp(start, safe));
    Machine.CountBelowSplits(Blocks(logs), start);
    assert Blocks(logs)[i] == logs[i].block;
    var hi := Machine.Hi(Blocks(logs), Machine.Clamp(start, safe));
    if 0 < after <= hi {
      assert Blocks(logs)[after - 1] == logs[after - 1].block;
    }
  }

  // ---------------------------------------------------------------------------------------------
  // The loop

  /** What the reads of one iteration return; the resync reads are only made after a rollback. */
  datatype Reads = Reads(nonce: nat, resyncSafe: nat, resyncNonce: nat, safe: nat, last: nat, after: nat)

  class EthOracle {
    var lastCheckedBlock: nat
    var lastCheckedEvent: nat
    var halted: bool

    /** Start-up: resumes at the validator's last event. */
    method Resume(logs: seq<Log>, safe: nat, nonce: nat)
      requires GoodLogs(logs) && !halted
      modifies this
      ensures var k := Machine.Resumed(nonce);
        if safe > 0 && Visible(logs, safe, k) then !halted && lastCheckedBlock == logs[k - 1].block && lastCheckedEvent == 0
        else halted
    {
      var block := GetLastCheckedBlock(logs, safe, nonce);
      match block
      case Some(b) => lastCheckedBlock, lastCheckedEvent := b, 0;
      case None => halted := true;
    }

    /** The two fields follow the machine: rollback detection, then the check and what it records. */
    method Iterate(logs: seq<Log>, r: Reads) returns (sent: seq<Claim>)
      requires GoodLogs(logs) && !halted
      modifies this
      ensures var back := r.nonce < old(lastCheckedEvent);
        var k := Machine.Resumed(r.resyncNonce);
        if back && !(r.resyncSafe > 0 && Visible(logs, r.resyncSafe, k)) then halted && sent == []
        else
          var start := if back then logs[k - 1].block else old(lastCheckedBlock);
          var event := if back then r.nonce else old(lastCheckedEvent);
          && SentFor(logs, r.safe, start, r.last, sent)
          && match CheckResult(logs, r.safe, start, r.last, r.after)
             case Ok(b, e) => !halted && lastCheckedBlock == b && lastCheckedEvent == Machine.Max(event, e)
             case Err => !halted && lastCheckedBlock == start && lastCheckedEvent == event
             case Panic => halted
    {
      sent := [];
      if r.nonce < lastCheckedEvent {
        lastCheckedEvent := r.nonce;
        var block := GetLastCheckedBlock(logs, r.resyncSafe, r.resyncNonce);
        if block.None? {
          halted := true;
          return;
        }
        lastCheckedBlock := block.value;
      }
      var checked;
      checked, sent := CheckForNewEvents(logs, r.safe, lastCheckedBlock, r.last, r.after);
      match checked {
        case Ok(b, e) =>
          lastCheckedBlock := b;
          if e > lastCheckedEvent {
            lastCheckedEvent := e;
          }
        case Err =>
        case Panic =>
          halted := true;
      }
    }
  }

  /** A check is what the machine does in `Match` and, when something was sent, `Recheck`. */
  lemma CheckIsMachine(s: Machine.State, logs: seq<Log>, after: nat)
    requires GoodLogs(logs) && Blocks(logs) == s.eth.blocks && s.pc == Machine.Filter(Machine.Clamp(s.block, s.eth.safe))
    requires Readable(logs, s.block, s.pc.latest)
    ensures var m := Machine.Next(s, Machine.Match);
      var t := if m.pc.Confirm? then Machine.Next(m.(nonce := after), Machine.Recheck) else m;
      match CheckResult(logs, s.eth.safe, s.block, s.nonce, after)
      case Ok(b, e) => t.pc.Top? && t.block == b && t.event == Machine.Max(s.event, e)
      case Err => t.pc.Top? && t.block == s.block && t.event == s.event
      case Panic => t.pc.Restart?
  {
  }

  /** And what the check sends is the transaction the machine sends. */
  lemma CheckSendsAsMachine(s: Machine.State, logs: seq<Log>, sent: seq<Claim>)
    requires Blocks(logs) == s.eth.blocks && s.pc == Machine.Filter(Machine.Clamp(s.block, s.eth.safe))
    requires Readable(logs, s.block, s.pc.latest) && SentFor(logs, s.eth.safe, s.block, s.nonce, sent)
    ensures Machine.Sends(s, Machine.Match) == if sent == [] then {} else {Machine.Tx(sent[0].nonce, sent[|sent| - 1].nonce)}
  {
  }

  /**
  Start-up and resync: with the log readable at the event to resume at, both find its block exactly when the log has
  it, and otherwise end the process.
   */
  lemma ResumeIsMachine(s: Machine.State, logs: seq<Log>)
    requires Blocks(logs) == s.eth.blocks && Machine.GoodEth(s.eth)
    requires var k := Machine.Resumed(s.nonce); k <= |logs| ==> logs[k - 1].parsed.Some?
    ensures var k := Machine.Resumed(s.nonce);
      var started, resynced := Machine.Next(s, Machine.Start), Machine.Next(s, Machine.DoResync);
      if Visible(logs, s.eth.safe, k)
      then
        && started.pc.Top? && started.block == logs[k - 1].block && started.event == 0
        && resynced.pc.Look? && resynced.block == logs[k - 1].block && resynced.event == s.event
      else (s.pc.Restart? ==> started.pc.Restart?) && resynced.pc.Restart?
  {
    var k := Machine.Resumed(s.nonce);
    if k <= |logs| {
      assert s.eth.blocks[k - 1] == logs[k - 1].block;
    }
  }
}
