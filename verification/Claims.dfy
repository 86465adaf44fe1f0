/** Turning observed events into one ordered, bounded list of claims. */
module Claims {
  import opened Options
  import opened Sorting

  datatype Claim = Claim(nonce: nat, event: nat)

  const MAX_ORACLE_MESSAGES: nat := 1000

  ghost predicate DistinctNonces(claims: seq<Claim>) {
    forall i, j :: 0 <= i < j < |claims| ==> claims[i].nonce != claims[j].nonce
  }

  ghost predicate InOrder(claims: seq<Claim>) {
    forall i, j :: 0 <= i < j < |claims| ==> claims[i].nonce < claims[j].nonce
  }

  /** The oldest `|sent|` of the claims, in nonce order. */
  ghost predicate Oldest(claims: seq<Claim>, sent: seq<Claim>) {
    && InOrder(sent)
    && (forall i :: 0 <= i < |sent| ==> sent[i] in claims)
    && (forall c, i :: c in claims && c !in sent && 0 <= i < |sent| ==> sent[i].nonce < c.nonce)
  }

  /** Every claim is found under its nonce, and nothing else is. */
  ghost predicate Indexed(claims: seq<Claim>, byNonce: map<nat, Claim>) {
    && (forall i :: 0 <= i < |claims| ==> claims[i].nonce in byNonce && byNonce[claims[i].nonce] == claims[i])
    && (forall n :: n in byNonce ==> byNonce[n].nonce == n && byNonce[n] in claims)
  }

  /** Indexes claims by nonce; fails on a nonce that is already there. */
  method Index(claims: seq<Claim>) returns (byNonce: map<nat, Claim>, ok: bool)
    ensures ok <==> DistinctNonces(claims)
    ensures ok ==> Indexed(claims, byNonce) && |byNonce| == |claims|
  {
    byNonce, ok := map[], true;
    for i := 0 to |claims|
      invariant DistinctNonces(claims[..i]) && |byNonce| == i && Indexed(claims[..i], byNonce)
    {
      assert claims[..i + 1] == claims[..i] + [claims[i]];
      if claims[i].nonce in byNonce {
        assert byNonce[claims[i].nonce] in claims[..i];
        ok := false;
        return;
      }
      byNonce := byNonce[claims[i].nonce := claims[i]];
    }
    assert claims[..|claims|] == claims;
  }

  /** The claims by ascending nonce, cut to what fits one transaction; `None` is the failed assertion on duplicates. */
  method SendEthereumClaims(deposits: seq<Claim>, withdraws: seq<Claim>, deploys: seq<Claim>, calls: seq<Claim>,
        valsets: seq<Claim>)
    returns (sent: Option<seq<Claim>>)
    ensures var all := deposits + withdraws + deploys + calls + valsets;
      && (sent.None? <==> !DistinctNonces(all))
      && (sent.Some? ==>
            && Oldest(all, sent.value)
            && |sent.value| == if |all| <= MAX_ORACLE_MESSAGES then |all| else MAX_ORACLE_MESSAGES)
  {
    var all := deposits + withdraws + deploys + calls + valsets;
    var byNonce, ok := Index(all);
    if !ok {
      return None;
    }
    var keys := SortKeys(byNonce.Keys);
    SortedLength(keys, byNonce.Keys);
    var msgs: seq<Claim> := [];
    for i := 0 to |keys|
      invariant |msgs| == i && forall j :: 0 <= j < i ==> keys[j] in byNonce && msgs[j] == byNonce[keys[j]]
    {
      assert keys[i] in Elements(keys);
      msgs := msgs + [byNonce[keys[i]]];
    }
    ghost var full := msgs;
    while |msgs| > MAX_ORACLE_MESSAGES
      invariant msgs <= full
      invariant |full| <= MAX_ORACLE_MESSAGES ==> msgs == full
      invariant |full| > MAX_ORACLE_MESSAGES ==> |msgs| >= MAX_ORACLE_MESSAGES
      decreases |msgs|
    {
      msgs := msgs[..|msgs| - 1];
    }
    PrefixIsOldest(all, byNonce, keys, full, msgs);
    return Some(msgs);
  }

  lemma {:induction false} SortedLength(keys: seq<nat>, s: set<nat>)
    requires Ascending(keys) && Elements(keys) == s
    ensures |keys| == |s|
  {
    if keys != [] {
      var front, last := keys[..|keys| - 1], keys[|keys| - 1];
      assert keys == front + [last];
      assert last in Elements(keys) && last !in Elements(front);
      assert Elements(front) == s - {last};
      SortedLength(front, s - {last});
    } else {
      assert s == {};
    }
  }

  lemma PrefixIsOldest(all: seq<Claim>, byNonce: map<nat, Claim>, keys: seq<nat>, full: seq<Claim>, msgs: seq<Claim>)
    requires Ascending(keys) && Elements(keys) == byNonce.Keys && |full| == |keys| && msgs <= full
    requires Indexed(all, byNonce)
    requires forall j :: 0 <= j < |keys| ==> keys[j] in byNonce && full[j] == byNonce[keys[j]]
    ensures Oldest(all, msgs)
  {
    forall c, i | c in all && c !in msgs && 0 <= i < |msgs|
      ensures msgs[i].nonce < c.nonce
    {
      assert c.nonce in Elements(keys);
      var j :| 0 <= j < |keys| && keys[j] == c.nonce;
      assert full[j] == c && full[i] == msgs[i];
      assert msgs == full[..|msgs|];
    }
  }

  ghost predicate Covers(claims: seq<Claim>, n: nat) {
    exists i :: 0 <= i < |claims| && claims[i].nonce == n
  }

  /** Claims for an unbroken range of nonces go out as an unbroken range from the same start. */
  lemma {:induction false} UnbrokenRange(claims: seq<Claim>, sent: seq<Claim>, lo: nat, hi: nat, i: nat)
    requires Oldest(claims, sent) && i < |sent|
    requires forall n :: lo <= n <= hi ==> Covers(claims, n)
    requires forall k :: 0 <= k < |claims| ==> lo <= claims[k].nonce <= hi
    ensures sent[i].nonce == lo + i
    decreases i
  {
    assert sent[i] in claims;
    var next := if i == 0 then lo else sent[i - 1].nonce + 1;
    if i > 0 {
      UnbrokenRange(claims, sent, lo, hi, i - 1);
      assert sent[i - 1].nonce < sent[i].nonce;
    }
    assert Covers(claims, next);
    var k :| 0 <= k < |claims| && claims[k].nonce == next;
    var c := claims[k];
    assert next <= sent[i].nonce;
  }
}
