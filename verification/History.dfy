/**
Searching the Ethereum history backward in windows: where the oracle resumes, and which validator set the
contract has now. `logs` is the contract's event log up to the searched block, oldest first; searches return
positions in it. Event nonces are positions plus one, which the contract guarantees.
 */
module History {
  import opened Options
  import opened Sorting

  datatype Kind = BatchExecuted | SentToCosmos | Erc20Deployed | LogicCallExecuted | ValsetUpdated

  /** What parsing yields; the valset nonce only means something on valset updates. */
  datatype Parsed = Parsed(eventNonce: nat, valsetNonce: nat)

  datatype Log = Log(block: nat, kind: Kind, parsed: Option<Parsed>)

  const BLOCKS_TO_SEARCH: nat := 5000

  /** Blocks never decrease, the first event is the deployment's valset update, the only one with valset nonce 0. */
  ghost predicate GoodLogs(logs: seq<Log>) {
    && (forall i, j :: 0 <= i < j < |logs| ==> logs[i].block <= logs[j].block)
    && (logs != [] ==> logs[0].kind.ValsetUpdated?)
    && (forall i :: 0 <= i < |logs| && logs[i].parsed.Some? ==> logs[i].parsed.value.eventNonce == i + 1)
    && (forall i :: 0 <= i < |logs| && logs[i].parsed.Some? && logs[i].kind.ValsetUpdated? ==>
          (logs[i].parsed.value.valsetNonce == 0 <==> i == 0))
  }

  predicate InWindow(log: Log, from: nat, to: nat, kind: Kind) {
    from <= log.block <= to && log.kind == kind
  }

  /** All logs of a kind in a block range, oldest first. */
  method CheckForEvents(logs: seq<Log>, from: nat, to: nat, kind: Kind) returns (found: seq<nat>)
    ensures Ascending(found)
    ensures forall i :: i in found <==> 0 <= i < |logs| && InWindow(logs[i], from, to, kind)
  {
    found := [];
    for i := 0 to |logs|
      invariant Ascending(found)
      invariant forall k :: k in found <==> 0 <= k < i && InWindow(logs[k], from, to, kind)
    {
      if InWindow(logs[i], from, to, kind) {
        assert forall k :: 0 <= k < |found| ==> found[k] in found;
        found := found + [i];
      }
    }
  }

  method Reverse(s: seq<nat>) returns (r: seq<nat>)
    ensures |r| == |s| && forall i :: 0 <= i < |s| ==> r[i] == s[|s| - 1 - i]
  {
    r := [];
    for i := 0 to |s|
      invariant |r| == i && forall k :: 0 <= k < i ==> r[k] == s[|s| - 1 - k]
    {
      r := r + [s[|s| - 1 - i]];
    }
  }

  /** The log of event `nonce` is among `found` and can be parsed. */
  ghost predicate Finds(logs: seq<Log>, found: seq<nat>, nonce: nat) {
    nonce > 0 && nonce - 1 in found && nonce - 1 < |logs| && logs[nonce - 1].parsed.Some?
  }

  /** One of the four loops over events that are not valset updates. */
  method FindEvent(logs: seq<Log>, found: seq<nat>, nonce: nat) returns (block: Option<nat>)
    requires GoodLogs(logs) && nonce > 0 && forall i :: i in found ==> i < |logs|
    ensures block == if Finds(logs, found, nonce) then Some(logs[nonce - 1].block) else None
  {
    for i := 0 to |found|
      invariant nonce - 1 < |logs| && logs[nonce - 1].parsed.Some? ==> nonce - 1 !in found[..i]
    {
      assert found[i] in found;
      var log := logs[found[i]];
      if log.parsed.Some? && log.parsed.value.eventNonce == nonce {
        assert found[i] == nonce - 1;
        return Some(log.block);
      }
    }
    assert found[..|found|] == found;
    return None;
  }

  datatype Scan = Found(block: nat) | Missing | NextWindow

  /** The loop over valset updates, newest first. The deployment event ends the search. */
  method ScanValsets(logs: seq<Log>, found: seq<nat>, nonce: nat) returns (r: Scan)
    requires GoodLogs(logs) && nonce > 0 && Ascending(found)
    requires forall i :: i in found ==> i < |logs| && logs[i].kind.ValsetUpdated?
    ensures r.Found? <==> Finds(logs, found, nonce)
    ensures r.Found? ==> r.block == logs[nonce - 1].block
    ensures r.Missing? ==> nonce > 1 && 0 in found
  {
    var events := Reverse(found);
    forall k | 0 <= k < |found|
      ensures found[k] in events
    {
      assert events[|found| - 1 - k] == found[k];
    }
    assert forall k :: 0 <= k < |events| ==> events[k] in found;
    for i := 0 to |events|
      invariant nonce - 1 < |logs| && logs[nonce - 1].parsed.Some? ==> nonce - 1 !in events[..i]
    {
      assert events[i] in found;
      var log := logs[events[i]];
      if log.parsed.Some? {
        var bootstrapping := log.parsed.value.valsetNonce == 0 && nonce == 1;
        var commonCase := log.parsed.value.eventNonce == nonce;
        if commonCase || bootstrapping {
          assert events[i] == nonce - 1;
          return Found(log.block);
        } else if log.parsed.value.valsetNonce == 0 && nonce > 1 {
          NothingOlder(found, events, i, nonce - 1);
          return Missing;
        }
      }
    }
    assert events[..|events|] == events;
    return NextWindow;
  }

  /** Position 0 comes last in the reversed list. */
  lemma NothingOlder(found: seq<nat>, events: seq<nat>, i: nat, k: nat)
    requires Ascending(found) && |events| == |found| && i < |events| && events[i] == 0
    requires forall j :: 0 <= j < |found| ==> events[j] == found[|found| - 1 - j]
    ensures k in found && k != 0 ==> k in events[..i]
  {
    if k in found && k != 0 {
      var j :| 0 <= j < |found| && found[j] == k;
      assert events[|found| - 1 - j] == k;
      assert found[|found| - 1 - i] == 0;
    }
  }

  /** The event the oracle wants is visible and readable. */
  ghost predicate Visible(logs: seq<Log>, latest: nat, nonce: nat) {
    nonce > 0 && nonce - 1 < |logs| && logs[nonce - 1].block <= latest && logs[nonce - 1].parsed.Some?
  }

  method FindOther(logs: seq<Log>, from: nat, to: nat, nonce: nat) returns (block: Option<nat>)
    requires GoodLogs(logs) && nonce > 0
    ensures var k := nonce - 1;
      block == if k < |logs| && from <= logs[k].block <= to && !logs[k].kind.ValsetUpdated? && logs[k].parsed.Some?
               then Some(logs[k].block) else None
  {
    var batches := CheckForEvents(logs, from, to, BatchExecuted);
    var sends := CheckForEvents(logs, from, to, SentToCosmos);
    var deploys := CheckForEvents(logs, from, to, Erc20Deployed);
    var calls := CheckForEvents(logs, from, to, LogicCallExecuted);
    block := FindEvent(logs, batches, nonce);
    if block.Some? {
      return;
    }
    block := FindEvent(logs, sends, nonce);
    if block.Some? {
      return;
    }
    block := FindEvent(logs, deploys, nonce);
    if block.Some? {
      return;
    }
    block := FindEvent(logs, calls, nonce);
  }

  /**
  Where the oracle resumes: the block of the validator's last event, or of the deployment when it has none.
  `None` is a panic, and happens exactly when that event is not visible, cannot be parsed or the chain is empty.
   */
  method GetLastCheckedBlock(logs: seq<Log>, latest: nat, lastEventNonce: nat) returns (r: Option<nat>)
    requires GoodLogs(logs)
    ensures var nonce := if lastEventNonce == 0 then 1 else lastEventNonce;
      r == if latest > 0 && Visible(logs, latest, nonce) then Some(logs[nonce - 1].block) else None
  {
    var nonce := if lastEventNonce == 0 then 1 else lastEventNonce;
    var current := latest;
    while current > 0
      invariant current <= latest
      invariant Visible(logs, latest, nonce) ==> logs[nonce - 1].block < current || current == latest
    {
      var end := if current < BLOCKS_TO_SEARCH then 0 else current - BLOCKS_TO_SEARCH;
      var block := FindOther(logs, end, current, nonce);
      if block.Some? {
        return block;
      }
      var valsets := CheckForEvents(logs, end, current, ValsetUpdated);
      var scan := ScanValsets(logs, valsets, nonce);
      match scan {
        case Found(b) =>
          return Some(b);
        case Missing =>
          DeploymentIsOldest(logs, end, nonce);
          return None;
        case NextWindow =>
      }
      current := end;
    }
    return None;
  }

  lemma DeploymentIsOldest(logs: seq<Log>, end: nat, nonce: nat)
    requires GoodLogs(logs) && logs != [] && end <= logs[0].block && nonce > 1
    ensures nonce - 1 < |logs| ==> end <= logs[nonce - 1].block
  {
  }

  // ---------------------------------------------------------------------------------------------
  // The contract's current validator set

  /** Nothing after position `k` is a valset update. */
  ghost predicate NewestValset(logs: seq<Log>, latest: nat, k: nat) {
    && k < |logs| && logs[k].kind.ValsetUpdated? && logs[k].block <= latest
    && forall i :: k < i < |logs| && logs[i].block <= latest ==> !logs[i].kind.ValsetUpdated?
  }

  /** The last update in blocks `from` to `to`. */
  ghost predicate NewestIn(logs: seq<Log>, from: nat, to: nat, k: nat) {
    && k < |logs| && InWindow(logs[k], from, to, ValsetUpdated)
    && forall i :: k < i < |logs| ==> !InWindow(logs[i], from, to, ValsetUpdated)
  }

  /** Searched windows follow each other downward from `latest`, 5000 blocks each. */
  function WindowEnd(latest: nat, j: nat): nat {
    if latest < 5000 * j then 0 else latest - 5000 * j
  }

  /** The update the search takes from window `j`. */
  ghost predicate TakenFrom(logs: seq<Log>, latest: nat, j: nat, k: nat) {
    && WindowEnd(latest, j) > 0
    && NewestIn(logs, WindowEnd(latest, j + 1), WindowEnd(latest, j), k) && logs[k].parsed.Some?
  }

  /** Window `j` has no update, or its newest one cannot be parsed. */
  ghost predicate PassedOver(logs: seq<Log>, latest: nat, j: nat) {
    WindowEnd(latest, j) > 0 ==> forall k: nat :: !TakenFrom(logs, latest, j, k)
  }

  /**
  The position of the valset update the relayer takes; `None` is a panic. It is the newest update of the first window
  whose newest update can be parsed. So it is the newest of all exactly when that one can be parsed: otherwise the
  search goes on in older windows and can end at a stale set.
   */
  method FindLatestValset(logs: seq<Log>, latest: nat) returns (r: Option<nat>)
    requires GoodLogs(logs)
    ensures r.Some? ==> r.value < |logs| && logs[r.value].kind.ValsetUpdated? && logs[r.value].block <= latest && logs[r.value].parsed.Some?
    ensures (r.Some? && NewestValset(logs, latest, r.value)) <==>
      latest > 0 && exists k: nat :: NewestValset(logs, latest, k) && logs[k].parsed.Some?
    ensures match r
      case Some(k) => exists j: nat :: TakenFrom(logs, latest, j, k) && forall i: nat :: i < j ==> PassedOver(logs, latest, i)
      case None => forall i: nat :: PassedOver(logs, latest, i)
  {
    hide TakenFrom, PassedOver;
    var current := latest;
    ghost var j := 0;
    while current > 0
      invariant current <= latest && current == WindowEnd(latest, j)
      invariant forall i: nat :: i < j ==> PassedOver(logs, latest, i)
      invariant forall k: nat :: NewestValset(logs, latest, k) && logs[k].parsed.Some? ==> logs[k].block < current || current == latest
    {
      var end := if current < BLOCKS_TO_SEARCH then 0 else current - BLOCKS_TO_SEARCH;
      var found := CheckForEvents(logs, end, current, ValsetUpdated);
      var events := Reverse(found);
      forall k: nat | NewestValset(logs, latest, k) && logs[k].parsed.Some? && events == []
        ensures logs[k].block < end
      {
        assert k !in found;
      }
      if events != [] {
        assert events[0] in found;
        forall k: nat | NewestValset(logs, latest, k) && logs[k].parsed.Some?
          ensures k == events[0]
        {
          assert events[0] <= k;
          assert logs[events[0]].block <= logs[k].block;
          assert k in found;
        }
        NewestFound(logs, latest, j, found);
        if logs[events[0]].parsed.Some? {
          return Some(events[0]);
        }
      } else {
        NoneFound(logs, latest, j, found);
      }
      current := end;
      j := j + 1;
    }
    forall i: nat
      ensures PassedOver(logs, latest, i)
    {
      if i >= j {
        NoWindow(logs, latest, j, i);
      }
    }
    return None;
  }

  lemma NewestFound(logs: seq<Log>, latest: nat, j: nat, found: seq<nat>)
    requires found != [] && Ascending(found) && WindowEnd(latest, j) > 0
    requires forall i :: i in found <==> 0 <= i < |logs| && InWindow(logs[i], WindowEnd(latest, j + 1), WindowEnd(latest, j), ValsetUpdated)
    ensures var k := found[|found| - 1];
      k < |logs| && if logs[k].parsed.Some? then TakenFrom(logs, latest, j, k) else PassedOver(logs, latest, j)
  {
    var k := found[|found| - 1];
    assert k in found;
    forall i | k < i < |logs|
      ensures i !in found
    {
    }
  }

  lemma NoneFound(logs: seq<Log>, latest: nat, j: nat, found: seq<nat>)
    requires found == []
    requires forall i :: i in found <==> 0 <= i < |logs| && InWindow(logs[i], WindowEnd(latest, j + 1), WindowEnd(latest, j), ValsetUpdated)
    ensures PassedOver(logs, latest, j)
  {
    forall k: nat
      ensures !TakenFrom(logs, latest, j, k)
    {
      assert k !in found;
    }
  }

  lemma NoWindow(logs: seq<Log>, latest: nat, j: nat, i: nat)
    requires WindowEnd(latest, j) == 0 && j <= i
    ensures PassedOver(logs, latest, i)
  {
  }
}
