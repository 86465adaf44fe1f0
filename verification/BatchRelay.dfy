/** Submitting batches with one read of the contract's batch nonce for each token. */
module BatchRelay {
  import opened ContractLimits

  type Token = nat

  datatype Batch = Batch(token: Token, nonce: nat, timeout: nat, signed: bool)

  function OfToken(batches: seq<Batch>, t: Token): seq<Batch> {
    if batches == [] then []
    else
      var front, b := batches[..|batches| - 1], batches[|batches| - 1];
      OfToken(front, t) + if b.token == t && b.signed then [b] else []
  }

  function Reversed(s: seq<Batch>): seq<Batch> {
    seq(|s|, i requires 0 <= i < |s| => s[|s| - 1 - i])
  }

  function Listed(m: map<Token, seq<Batch>>, t: Token): seq<Batch> {
    if t in m then m[t] else []
  }

  /** The list holds the signed batches of `t` at all their positions in the listing, last position first. */
  ghost predicate Picks(batches: seq<Batch>, t: Token, at: seq<nat>, list: seq<Batch>) {
    && |at| == |list|
    && (forall i :: 0 <= i < |at| ==> at[i] < |batches| && list[i] == batches[at[i]])
    && (forall i, j :: 0 <= i < j < |at| ==> at[i] > at[j])
    && (forall p :: 0 <= p < |batches| ==> (p in at <==> batches[p].token == t && batches[p].signed))
  }

  /** Nothing that is signed is lost and nothing else is listed, each batch as often as in the listing. */
  ghost predicate Grouped(batches: seq<Batch>, t: Token, list: seq<Batch>) {
    && (exists at :: Picks(batches, t, at, list))
    && (forall b :: b in list <==> b in batches && b.token == t && b.signed)
    && (forall b :: b in list ==> multiset(list)[b] == multiset(batches)[b])
  }

  lemma ReversedIsGrouped(batches: seq<Batch>, t: Token)
    ensures Grouped(batches, t, Reversed(OfToken(batches, t)))
  {
    hide OfToken, Picks, Reversed;
    var list := Reversed(OfToken(batches, t));
    PicksAll(batches, t);
    var at :| Picks(batches, t, at, list);
    forall b
      ensures b in list <==> b in batches && b.token == t && b.signed
    {
      PickedIff(batches, t, at, list, b);
    }
    forall b | b in list
      ensures multiset(list)[b] == multiset(batches)[b]
    {
      SameCount(batches, t, b);
      ReversedCount(OfToken(batches, t));
    }
  }

  lemma {:induction false} PicksAll(batches: seq<Batch>, t: Token)
    ensures exists at :: Picks(batches, t, at, Reversed(OfToken(batches, t)))
  {
    hide Picks;
    if batches == [] {
      PicksNone(t);
      assert Picks(batches, t, [], Reversed(OfToken(batches, t)));
    } else {
      var front, b := batches[..|batches| - 1], batches[|batches| - 1];
      PicksAll(front, t);
      assert batches == front + [b];
      var list := Reversed(OfToken(front, t));
      var at :| Picks(front, t, at, list);
      if b.token == t && b.signed {
        assert Reversed(OfToken(batches, t)) == [b] + list;
        PicksOneMore(front, b, t, at, list);
      } else {
        assert OfToken(batches, t) == OfToken(front, t);
        PicksNoMore(front, b, t, at, list);
      }
    }
  }

  lemma PicksNone(t: Token)
    ensures Picks([], t, [], Reversed([]))
  {
  }

  lemma PicksOneMore(front: seq<Batch>, b: Batch, t: Token, at: seq<nat>, list: seq<Batch>)
    requires Picks(front, t, at, list) && b.token == t && b.signed
    ensures Picks(front + [b], t, [|front|] + at, [b] + list)
  {
    var picks, batches, more := [|front|] + at, front + [b], [b] + list;
    forall i | 0 <= i < |picks|
      ensures picks[i] < |batches| && more[i] == batches[picks[i]] && (i > 0 ==> picks[i] == at[i - 1] < |front|)
    {
    }
    forall p | 0 <= p < |batches|
      ensures p in picks <==> batches[p].token == t && batches[p].signed
    {
      OneMoreMember(at, |front|, p);
    }
  }

  lemma OneMoreMember(at: seq<nat>, first: nat, p: nat)
    ensures p in [first] + at <==> p == first || p in at
  {
  }

  lemma PicksNoMore(front: seq<Batch>, b: Batch, t: Token, at: seq<nat>, list: seq<Batch>)
    requires Picks(front, t, at, list) && !(b.token == t && b.signed)
    ensures Picks(front + [b], t, at, list)
  {
    assert forall p :: p in at ==> p < |front|;
  }

  lemma PickedIff(batches: seq<Batch>, t: Token, at: seq<nat>, list: seq<Batch>, b: Batch)
    requires Picks(batches, t, at, list)
    ensures b in list <==> b in batches && b.token == t && b.signed
  {
    if b in list {
      var i :| 0 <= i < |list| && list[i] == b;
      assert at[i] in at && batches[at[i]] == b;
    }
    if b in batches && b.token == t && b.signed {
      var p :| 0 <= p < |batches| && batches[p] == b;
      assert p in at;
      var i :| 0 <= i < |at| && at[i] == p;
      assert list[i] == b;
    }
  }

  lemma CountMore(s: seq<Batch>, last: Batch, b: Batch)
    ensures multiset(s + [last])[b] == multiset(s)[b] + if last == b then 1 else 0
  {
  }

  lemma OfTokenMore(front: seq<Batch>, last: Batch, t: Token)
    ensures OfToken(front + [last], t) == if last.token == t && last.signed then OfToken(front, t) + [last] else OfToken(front, t)
  {
    assert (front + [last])[..|front|] == front;
  }

  lemma {:induction false} SameCount(batches: seq<Batch>, t: Token, b: Batch)
    ensures multiset(OfToken(batches, t))[b] == if b.token == t && b.signed then multiset(batches)[b] else 0
  {
    if batches != [] {
      hide OfToken;
      var front, last := batches[..|batches| - 1], batches[|batches| - 1];
      assert batches == front + [last];
      SameCount(front, t, b);
      OfTokenMore(front, last, t);
      CountMore(front, last, b);
      CountMore(OfToken(front, t), last, b);
    }
  }

  lemma {:induction false} ReversedCount(s: seq<Batch>)
    ensures multiset(Reversed(s)) == multiset(s)
  {
    if s != [] {
      var front, last := s[..|s| - 1], s[|s| - 1];
      ReversedCount(front);
      assert s == front + [last];
      assert Reversed(s) == [last] + Reversed(front);
    }
  }

  /** The signed batches of each token, in the reverse of their order in the listing. */
  method GroupBatches(batches: seq<Batch>) returns (possible: map<Token, seq<Batch>>)
    ensures forall t :: Grouped(batches, t, Listed(possible, t))
    ensures forall t :: Listed(possible, t) == Reversed(OfToken(batches, t))
  {
    hide Grouped;
    possible := map[];
    for i := 0 to |batches|
      invariant forall t :: Listed(possible, t) == OfToken(batches[..i], t)
    {
      assert batches[..i + 1][..i] == batches[..i];
      var b := batches[i];
      if b.signed {
        possible := possible[b.token := Listed(possible, b.token) + [b]];
      }
    }
    assert batches[..|batches|] == batches;
    var lists := possible;
    var todo := possible.Keys;
    while todo != {}
      invariant todo <= lists.Keys && possible.Keys == lists.Keys
      invariant forall t :: t in lists ==> possible[t] == if t in todo then lists[t] else Reversed(lists[t])
      decreases todo
    {
      var t :| t in todo;
      possible := possible[t := Reversed(possible[t])];
      todo := todo - {t};
    }
    forall t
      ensures Listed(possible, t) == Reversed(OfToken(batches, t))
    {
      assert Listed(lists, t) == OfToken(batches, t);
    }
    forall t
      ensures Grouped(batches, t, Listed(possible, t))
    {
      ReversedIsGrouped(batches, t);
    }
  }

  /** Per token, the chain lists newer batches first. */
  ghost predicate NewestFirst(batches: seq<Batch>) {
    forall i, j :: 0 <= i < j < |batches| && batches[i].token == batches[j].token ==> batches[i].nonce > batches[j].nonce
  }

  ghost predicate OldestFirst(batches: seq<Batch>) {
    forall i, j :: 0 <= i < j < |batches| ==> batches[i].nonce < batches[j].nonce
  }

  lemma {:induction false} OfTokenDescends(batches: seq<Batch>, t: Token)
    requires NewestFirst(batches)
    ensures forall i, j :: 0 <= i < j < |OfToken(batches, t)| ==> OfToken(batches, t)[i].nonce > OfToken(batches, t)[j].nonce
    ensures forall i :: 0 <= i < |OfToken(batches, t)| ==> OfToken(batches, t)[i] in batches && OfToken(batches, t)[i].token == t && OfToken(batches, t)[i].signed
  {
    if batches != [] {
      OfTokenDescends(batches[..|batches| - 1], t);
    }
  }

  /** What `GroupBatches` hands on is in submission order. */
  lemma GroupedOldestFirst(batches: seq<Batch>, t: Token)
    requires NewestFirst(batches)
    ensures OldestFirst(Reversed(OfToken(batches, t)))
    ensures forall i :: 0 <= i < |OfToken(batches, t)| ==> Reversed(OfToken(batches, t))[i].token == t
  {
    OfTokenDescends(batches, t);
  }

  // ---------------------------------------------------------------------------------------------
  // Submission

  /** The contract's own checks, at block `now` and last batch nonce `nonce`. */
  predicate Accepts(b: Batch, nonce: nat, now: nat) {
    nonce < b.nonce <= nonce + MAX_NONCE_STEP && now < b.timeout
  }

  /** What a relayer submits that reads the contract's nonce before each batch. */
  ghost function FreshReads(batches: seq<Batch>, nonce: nat, height: nat, now: nat, wanted: Batch -> bool): seq<Batch> {
    if batches == [] then []
    else
      var b, rest := batches[0], batches[1..];
      if b.timeout < height || b.nonce <= nonce || !wanted(b) then FreshReads(rest, nonce, height, now, wanted)
      else [b] + FreshReads(rest, if Accepts(b, nonce, now) then b.nonce else nonce, height, now, wanted)
  }

  /** What the cached nonce lets through. */
  ghost function CachedReads(batches: seq<Batch>, cached: nat, height: nat, wanted: Batch -> bool): seq<Batch> {
    if batches == [] then []
    else
      var b, rest := batches[0], batches[1..];
      (if b.timeout < height || b.nonce <= cached || !wanted(b) then [] else [b]) + CachedReads(rest, cached, height, wanted)
  }

  /** Where the contract's nonce ends up after these submissions. */
  function Reached(submitted: seq<Batch>, nonce: nat, now: nat): nat {
    if submitted == [] then nonce
    else
      var front, b := submitted[..|submitted| - 1], submitted[|submitted| - 1];
      var before := Reached(front, nonce, now);
      if Accepts(b, before, now) then b.nonce else before
  }

  /** The contract takes the `i`-th submission, unless that is timed out or too far from the nonce the pass began with. */
  predicate TakenUnlessHopeless(submitted: seq<Batch>, i: nat, nonce: nat, now: nat)
    requires i < |submitted|
  {
    || Accepts(submitted[i], Reached(submitted[..i], nonce, now), now)
    || submitted[i].timeout <= now
    || submitted[i].nonce > nonce + MAX_NONCE_STEP
  }

  /** One more submission, of a batch that is newer than what was reached. */
  lemma SubmittedMore(submitted: seq<Batch>, b: Batch, nonce: nat, now: nat)
    requires forall k :: 0 <= k < |submitted| ==> TakenUnlessHopeless(submitted, k, nonce, now)
    requires nonce <= Reached(submitted, nonce, now) < b.nonce
    ensures var before := Reached(submitted, nonce, now);
      Reached(submitted + [b], nonce, now) == if Accepts(b, before, now) then b.nonce else before
    ensures forall k :: 0 <= k < |submitted + [b]| ==> TakenUnlessHopeless(submitted + [b], k, nonce, now)
  {
    var more := submitted + [b];
    assert more[..|submitted|] == submitted;
    forall k | 0 <= k < |submitted|
      ensures TakenUnlessHopeless(more, k, nonce, now)
    {
      assert more[..k] == submitted[..k] && more[k] == submitted[k];
      assert TakenUnlessHopeless(submitted, k, nonce, now);
    }
  }

  lemma {:induction false} CacheIsSound(batches: seq<Batch>, cached: nat, nonce: nat, height: nat, now: nat,
        wanted: Batch -> bool)
    requires OldestFirst(batches) && cached <= nonce
    requires forall i :: 0 <= i < |batches| && batches[i].nonce > cached ==> batches[i].nonce > nonce
    ensures CachedReads(batches, cached, height, wanted) == FreshReads(batches, nonce, height, now, wanted)
  {
    if batches != [] {
      var b, rest := batches[0], batches[1..];
      assert forall i :: 0 <= i < |rest| ==> rest[i] == batches[i + 1];
      if b.timeout < height || b.nonce <= cached || !wanted(b) {
        CacheIsSound(rest, cached, nonce, height, now, wanted);
      } else {
        CacheIsSound(rest, cached, if Accepts(b, nonce, now) then b.nonce else nonce, height, now, wanted);
      }
    }
  }

  lemma {:induction false} ReachedFirst(b: Batch, rest: seq<Batch>, nonce: nat, now: nat)
    ensures Reached([b] + rest, nonce, now) == Reached(rest, if Accepts(b, nonce, now) then b.nonce else nonce, now)
    decreases rest
  {
    var all := [b] + rest;
    if rest == [] {
      assert all[..0] == [] && all[0] == b;
      assert Reached([], nonce, now) == nonce;
    } else {
      var front := rest[..|rest| - 1];
      ReachedFirst(b, front, nonce, now);
      assert all[..|all| - 1] == [b] + front;
    }
  }

  lemma {:induction false} ReachedGrows(submitted: seq<Batch>, nonce: nat, now: nat)
    ensures Reached(submitted, nonce, now) >= nonce
  {
    if submitted != [] {
      ReachedGrows(submitted[..|submitted| - 1], nonce, now);
    }
  }

  /** Wanted, not timed out on either side, and within the contract's reach. */
  predicate Deliverable(b: Batch, nonce: nat, height: nat, now: nat, wanted: Batch -> bool) {
    b.signed && wanted(b) && height <= b.timeout && now < b.timeout && b.nonce <= nonce + MAX_NONCE_STEP
  }

  /** Every deliverable batch is delivered, or the contract has gone past it. */
  lemma {:induction false} FreshReadsDeliver(batches: seq<Batch>, nonce: nat, height: nat, now: nat, wanted: Batch -> bool, b: Batch)
    requires b in batches && Deliverable(b, nonce, height, now, wanted)
    ensures Reached(FreshReads(batches, nonce, height, now, wanted), nonce, now) >= b.nonce
  {
    var x, rest := batches[0], batches[1..];
    var submitted := FreshReads(batches, nonce, height, now, wanted);
    ReachedGrows(submitted, nonce, now);
    if b.nonce > nonce {
      if x.timeout < height || x.nonce <= nonce || !wanted(x) {
        FreshReadsDeliver(rest, nonce, height, now, wanted, b);
      } else {
        var after := if Accepts(x, nonce, now) then x.nonce else nonce;
        ReachedFirst(x, FreshReads(rest, after, height, now, wanted), nonce, now);
        if x == b {
          ReachedGrows(FreshReads(rest, after, height, now, wanted), after, now);
        } else {
          FreshReadsDeliver(rest, after, height, now, wanted, b);
        }
      }
    }
  }

  lemma CachedNext(batches: seq<Batch>, i: nat, cached: nat, height: nat, wanted: Batch -> bool)
    requires i < |batches|
    ensures var b := batches[i];
      CachedReads(batches[i..], cached, height, wanted) ==
        (if b.timeout < height || b.nonce <= cached || !wanted(b) then [] else [b]) + CachedReads(batches[i + 1..], cached, height, wanted)
  {
    assert batches[i..][1..] == batches[i + 1..];
  }

  lemma NothingCached(cached: nat, height: nat, wanted: Batch -> bool)
    ensures CachedReads([], cached, height, wanted) == []
  {
  }

  class Contract {
    var lastBatchNonce: map<Token, nat>

    function Nonce(t: Token): nat
      reads this
    {
      if t in lastBatchNonce then lastBatchNonce[t] else 0
    }

    /** A batch that is not newer, too far ahead or timed out is refused. */
    method SubmitBatch(b: Batch, now: nat) returns (taken: bool)
      modifies this
      ensures taken <==> old(Nonce(b.token)) < b.nonce <= old(Nonce(b.token)) + 1000000 && now < b.timeout
      ensures lastBatchNonce == if taken then old(lastBatchNonce)[b.token := b.nonce] else old(lastBatchNonce)
    {
      var last := Nonce(b.token);
      taken := !(b.nonce <= last) && !(b.nonce > last + MAX_NONCE_STEP) && !(now >= b.timeout);
      if taken {
        lastBatchNonce := lastBatchNonce[b.token := b.nonce];
      }
    }

    /**
    The loop over one token's batches. With batches in order it submits what fresh reads would have let through, and each
    submission is taken unless its own timeout or its distance from where the pass began stands against it: none is
    refused because of an earlier one.
     */
    method SubmitToken(t: Token, batches: seq<Batch>, height: nat, now: nat, wanted: Batch -> bool)
      returns (submitted: seq<Batch>)
      requires OldestFirst(batches) && forall i :: 0 <= i < |batches| ==> batches[i].token == t
      modifies this
      ensures submitted == FreshReads(batches, old(Nonce(t)), height, now, wanted)
      ensures Nonce(t) == Reached(submitted, old(Nonce(t)), now)
      ensures forall i :: 0 <= i < |submitted| ==> TakenUnlessHopeless(submitted, i, old(Nonce(t)), now)
      ensures forall u :: u != t ==> Nonce(u) == old(Nonce(u))
    {
      hide CachedReads, FreshReads;
      submitted := [];
      var cached := Nonce(t);
      assert batches[0..] == batches;
      for i := 0 to |batches|
        invariant submitted + CachedReads(batches[i..], cached, height, wanted) == CachedReads(batches, cached, height, wanted)
        invariant cached <= Nonce(t) == Reached(submitted, cached, now)
        invariant forall k :: i <= k < |batches| && batches[k].nonce > cached ==> batches[k].nonce > Nonce(t)
        invariant forall k :: 0 <= k < |submitted| ==> TakenUnlessHopeless(submitted, k, cached, now)
        invariant forall u :: u != t ==> Nonce(u) == old(Nonce(u))
      {
        var b := batches[i];
        CachedNext(batches, i, cached, height, wanted);
        if !(b.timeout < height) && b.nonce > cached && wanted(b) {
          var _ := SubmitBatch(b, now);
          SubmittedMore(submitted, b, cached, now);
          submitted := submitted + [b];
        }
      }
      NothingCached(cached, height, wanted);
      assert batches[|batches|..] == [];
      CacheIsSound(batches, cached, cached, height, now, wanted);
    }

    /**
    One pass over a listing: each token ends where fresh reads would have taken it, and no signed batch of the listing
    that is wanted, in time and within reach is left waiting.
     */
    method RelayBatches(listing: seq<Batch>, height: nat, now: nat, wanted: Batch -> bool)
      requires NewestFirst(listing)
      modifies this
      ensures forall t :: Nonce(t) == AfterFreshReads(listing, t, old(Nonce(t)), height, now, wanted)
      ensures forall b :: b in listing && Deliverable(b, old(Nonce(b.token)), height, now, wanted) ==> b.nonce <= Nonce(b.token)
    {
      hide FreshReads, OfToken, OldestFirst, Reached, Grouped, Deliverable;
      var possible := GroupBatches(listing);
      var todo := possible.Keys;
      while todo != {}
        invariant todo <= possible.Keys
        invariant forall t :: t in possible && t !in todo ==> Nonce(t) == AfterFreshReads(listing, t, old(Nonce(t)), height, now, wanted)
        invariant forall t :: t !in possible || t in todo ==> Nonce(t) == old(Nonce(t))
        decreases todo
      {
        var t :| t in todo;
        GroupedOldestFirst(listing, t);
        assert Listed(possible, t) == possible[t];
        var _ := SubmitToken(t, possible[t], height, now, wanted);
        todo := todo - {t};
      }
      forall t | t !in possible
        ensures Nonce(t) == AfterFreshReads(listing, t, old(Nonce(t)), height, now, wanted)
      {
        assert Listed(possible, t) == Reversed(OfToken(listing, t));
        NothingReached(listing, t, old(Nonce(t)), height, now, wanted);
      }
      forall b | b in listing && Deliverable(b, old(Nonce(b.token)), height, now, wanted)
        ensures b.nonce <= Nonce(b.token)
      {
        ListedIsDelivered(listing, old(Nonce(b.token)), height, now, wanted, b);
      }
    }
  }

  ghost function AfterFreshReads(listing: seq<Batch>, t: Token, nonce: nat, height: nat, now: nat,
        wanted: Batch -> bool): nat {
    Reached(FreshReads(Reversed(OfToken(listing, t)), nonce, height, now, wanted), nonce, now)
  }

  lemma NothingReached(listing: seq<Batch>, t: Token, nonce: nat, height: nat, now: nat, wanted: Batch -> bool)
    requires Reversed(OfToken(listing, t)) == []
    ensures AfterFreshReads(listing, t, nonce, height, now, wanted) == nonce
  {
  }

  lemma ListedIsDelivered(listing: seq<Batch>, nonce: nat, height: nat, now: nat, wanted: Batch -> bool, b: Batch)
    requires b in listing && Deliverable(b, nonce, height, now, wanted)
    ensures b.nonce <= AfterFreshReads(listing, b.token, nonce, height, now, wanted)
  {
    hide FreshReads, Reached, OfToken;
    ReversedIsGrouped(listing, b.token);
    FreshReadsDeliver(Reversed(OfToken(listing, b.token)), nonce, height, now, wanted, b);
  }
}
