/**
Attestations of Ethereum events, and the part of the Cosmos chain they act on.

`Chain` is the state between two transactions. A Go panic inside EndBlocker sets `halted`: the
block is never committed and no step is taken any more. Claims are compared as values, which
assumes the claim hash has no collisions.
 */
module Attestations {
  import opened Quorum
  import opened Ledger

  /**
  `Other` stands for deposits, ERC20 deployments and valset updates, told apart by `payload`; `panics` foretells
  whether the handler panics on the state it will meet.
   */
  datatype Event =
    | BatchExecuted(token: Address, batchNonce: nat)
    | LogicCallExecuted
    | Other(payload: nat, panics: bool)

  datatype Claim = Claim(nonce: nat, height: nat, event: Event)

  datatype Attestation = Attestation(observed: bool, votes: seq<Validator>, claim: Claim)

  datatype Chain = Chain(
    ledger: Ledger,
    attestations: map<nat, seq<Attestation>>,
    validatorNonce: map<Validator, nat>,
    observedNonce: nat,
    observedHeight: nat,
    active: bool,
    bridgeable: set<Address>,
    halted: bool)

  /** A validator that never voted may start just below the last observed event. */
  function LastEventNonce(c: Chain, v: Validator): nat {
    if v in c.validatorNonce then c.validatorNonce[v]
    else if c.observedNonce >= 1 then c.observedNonce - 1
    else 0
  }

  /** The first attestation of `claim`, or the length when there is none. */
  function IndexOf(atts: seq<Attestation>, claim: Claim): (i: nat)
    ensures i <= |atts|
    ensures i < |atts| ==> atts[i].claim == claim
    ensures forall j :: 0 <= j < i ==> atts[j].claim != claim
  {
    if atts == [] then 0
    else if atts[0].claim == claim then 0
    else
      var i := IndexOf(atts[1..], claim);
      assert forall j :: 1 <= j < i + 1 ==> atts[j] == atts[1..][j - 1];
      i + 1
  }

  function AttestationsAt(c: Chain, n: nat): seq<Attestation> {
    if n in c.attestations then c.attestations[n] else []
  }

  function WithVote(atts: seq<Attestation>, claim: Claim, v: Validator): seq<Attestation> {
    var i := IndexOf(atts, claim);
    if i < |atts| then atts[i := atts[i].(votes := atts[i].votes + [v])]
    else atts + [Attestation(false, [v], claim)]
  }

  /** A validator's claim; a claim that is not for its next nonce is rejected. */
  function Attest(c: Chain, v: Validator, claim: Claim): Chain {
    if claim.nonce != LastEventNonce(c, v) + 1 then c
    else
      c.(attestations := c.attestations[claim.nonce := WithVote(AttestationsAt(c, claim.nonce), claim, v)],
      validatorNonce := c.validatorNonce[v := claim.nonce])
  }

  /**
  The effect of an observed claim. A batch whose token no longer classifies (unknown, not on the
  whitelist) is an error, and the error leaves the ledger as it was. Logic call claims have no handler.
   */
  function Handle(l: Ledger, bridgeable: set<Address>, claim: Claim): Outcome {
    match claim.event
    case BatchExecuted(token, n) =>
      if token !in bridgeable then Done(l) else Executed(l, token, n, claim.height)
    case LogicCallExecuted => Panic
    case Other(_, panics) => if panics then Panic else Done(l)
  }

  /** Observing such an event halts the chain whatever the ledger holds. */
  predicate Fatal(e: Event) {
    e.LogicCallExecuted? || (e.Other? && e.panics)
  }

  function Halt(c: Chain): Chain {
    c.(halted := true)
  }

  /** Attestation `i` at nonce `n` has passed the vote. */
  function Observe(c: Chain, n: nat, i: nat): Chain
    requires n in c.attestations && i < |c.attestations[n]|
  {
    var att := c.attestations[n][i];
    if att.claim.nonce != c.observedNonce + 1 || c.observedHeight > att.claim.height then Halt(c)
    else
      match Handle(c.ledger, c.bridgeable, att.claim)
      case Panic => Halt(c)
      case Done(l) =>
        c.(ledger := l, observedNonce := att.claim.nonce, observedHeight := att.claim.height,
        attestations := c.attestations[n := c.attestations[n][i := att.(observed := true)]])
  }

  predicate Hit(powers: Powers, att: Attestation) {
    att.observed || HasQuorum(powers, att.votes)
  }

  /** The first attestation that makes TryAttestation do something, or the length. */
  function FirstHit(powers: Powers, atts: seq<Attestation>): (i: nat)
    ensures i <= |atts|
    ensures i < |atts| ==> Hit(powers, atts[i])
    ensures forall j :: 0 <= j < i ==> !Hit(powers, atts[j])
  {
    if atts == [] then 0
    else if Hit(powers, atts[0]) then 0
    else
      var i := FirstHit(powers, atts[1..]);
      assert forall j :: 1 <= j < i + 1 ==> atts[j] == atts[1..][j - 1];
      i + 1
  }

  /** TryAttestation: an observed attestation must never be tried. */
  function Try(c: Chain, powers: Powers, n: nat, i: nat): Chain
    requires n in c.attestations && i < |c.attestations[n]|
  {
    if c.attestations[n][i].observed then Halt(c)
    else if HasQuorum(powers, c.attestations[n][i].votes) then Observe(c, n, i)
    else c
  }

  /** Some attestation at the next nonce makes TryAttestation do something. */
  predicate HasNext(c: Chain, powers: Powers) {
    FirstHit(powers, AttestationsAt(c, c.observedNonce + 1)) < |AttestationsAt(c, c.observedNonce + 1)|
  }

  function NextAttestation(c: Chain, powers: Powers): Attestation
    requires HasNext(c, powers)
  {
    AttestationsAt(c, c.observedNonce + 1)[FirstHit(powers, AttestationsAt(c, c.observedNonce + 1))]
  }

  /** One turn of the tally. */
  function TryNext(c: Chain, powers: Powers): Chain
    requires HasNext(c, powers)
  {
    Try(c, powers, c.observedNonce + 1, FirstHit(powers, AttestationsAt(c, c.observedNonce + 1)))
  }

  /** The nonces still to be observed. */
  ghost function Ahead(c: Chain): set<nat> {
    set n | n in c.attestations && n > c.observedNonce
  }

  lemma TryAdvances(c: Chain, powers: Powers, i: nat)
    requires i < |AttestationsAt(c, c.observedNonce + 1)|
    requires Hit(powers, AttestationsAt(c, c.observedNonce + 1)[i])
    ensures var c' := Try(c, powers, c.observedNonce + 1, i);
            !c'.halted ==>
              && c'.observedNonce == c.observedNonce + 1
              && c'.attestations.Keys == c.attestations.Keys
              && Ahead(c') < Ahead(c)
  {
    var c' := Try(c, powers, c.observedNonce + 1, i);
    if !c'.halted {
      assert c.observedNonce + 1 in Ahead(c) && c.observedNonce + 1 !in Ahead(c');
    }
  }

  /** The tally of one block: observe the next nonce while some attestation there passes. */
  function Tally(c: Chain, powers: Powers): Chain
    decreases Ahead(c)
  {
    if !c.active || c.halted then c
    else
      var n := c.observedNonce + 1;
      var i := FirstHit(powers, AttestationsAt(c, n));
      if i == |AttestationsAt(c, n)| then c
      else
        TryAdvances(c, powers, i);
        var c' := Try(c, powers, n, i);
        if c'.halted then c' else Tally(c', powers)
  }

  /** Events kept for display behind the last observed one. */
  const EVENTS_TO_KEEP := 1000

  function PruneAttestations(c: Chain): Chain {
    if c.observedNonce <= EVENTS_TO_KEEP then c
    else c.(attestations := map n | n in c.attestations && n >= c.observedNonce - EVENTS_TO_KEEP :: c.attestations[n])
  }

  /** Voters on attestations above the cutoff. */
  function VotersAbove(c: Chain, cutoff: nat): set<Validator> {
    set n, i, v | n in c.attestations && n > cutoff && 0 <= i < |c.attestations[n]| && v in c.attestations[n][i].votes :: v
  }

  /** Governance reset of the oracle: forget the votes above `cutoff`, never below the last observed event. */
  function Reset(c: Chain, cutoff: nat): Chain {
    if cutoff < c.observedNonce || cutoff == 0 then c
    else
      var affected := VotersAbove(c, cutoff);
      c.(attestations := map n | n in c.attestations && n <= cutoff :: c.attestations[n],
      validatorNonce :=
        c.validatorNonce + map v | v in affected && LastEventNonce(c, v) > cutoff :: cutoff)
  }

  /** No voter is lost or counted twice on one nonce, and nothing above the last observed nonce is observed. */
  ghost predicate Voted(c: Chain, n: nat, att: Attestation) {
    && att.claim.nonce == n
    && Distinct(att.votes)
    && (att.observed ==> n <= c.observedNonce)
    && (forall v :: v in att.votes ==> v in c.validatorNonce && n <= c.validatorNonce[v])
  }

  ghost predicate Apart(a: Attestation, b: Attestation) {
    && a.claim != b.claim
    && (forall v :: v in a.votes ==> v !in b.votes)
    && !(a.observed && b.observed)
  }

  /** What every step keeps: each validator votes at most once per nonce, each nonce is observed at most once. */
  ghost predicate OneVotePerNonce(c: Chain) {
    && (forall n, i :: n in c.attestations && 0 <= i < |c.attestations[n]| ==> Voted(c, n, c.attestations[n][i]))
    && (forall n, i, j :: n in c.attestations && 0 <= i < j < |c.attestations[n]|
                          ==> Apart(c.attestations[n][i], c.attestations[n][j]))
  }

  lemma AttestKeepsOneVotePerNonce(c: Chain, v: Validator, claim: Claim)
    requires OneVotePerNonce(c)
    ensures OneVotePerNonce(Attest(c, v, claim))
  {
    var c' := Attest(c, v, claim);
    var n := claim.nonce;
    if n == LastEventNonce(c, v) + 1 {
      var atts, atts' := AttestationsAt(c, n), c'.attestations[n];
      assert forall i :: 0 <= i < |atts| ==> v !in atts[i].votes;
      forall m, i | m in c'.attestations && 0 <= i < |c'.attestations[m]|
        ensures Voted(c', m, c'.attestations[m][i])
      {
        if m != n {
          assert Voted(c, m, c.attestations[m][i]);
        } else if i < |atts| {
          assert Voted(c, n, atts[i]);
        }
      }
      forall m, i, j | m in c'.attestations && 0 <= i < j < |c'.attestations[m]|
        ensures Apart(c'.attestations[m][i], c'.attestations[m][j])
      {
        if m != n || j < |atts| {
          assert Apart(AttestationsAt(c, m)[i], AttestationsAt(c, m)[j]);
        }
      }
    }
  }

  lemma ResetKeepsOneVotePerNonce(c: Chain, cutoff: nat)
    requires OneVotePerNonce(c)
    ensures OneVotePerNonce(Reset(c, cutoff))
  {
    var c' := Reset(c, cutoff);
    forall n, i | n in c'.attestations && 0 <= i < |c'.attestations[n]|
      ensures Voted(c', n, c'.attestations[n][i])
    {
      assert Voted(c, n, c.attestations[n][i]);
    }
  }

  lemma PruneKeepsOneVotePerNonce(c: Chain)
    requires OneVotePerNonce(c)
    ensures OneVotePerNonce(PruneAttestations(c))
  {
    var c' := PruneAttestations(c);
    forall n, i | n in c'.attestations && 0 <= i < |c'.attestations[n]|
      ensures Voted(c', n, c'.attestations[n][i])
    {
      assert Voted(c, n, c.attestations[n][i]);
    }
  }

  /** Exactly what is more than 1000 events behind is dropped, so nothing that is still to be observed. */
  lemma PruneKeepsUnobserved(c: Chain)
    ensures var c' := PruneAttestations(c);
      && c' == c.(attestations := c'.attestations)
      && (forall n :: n in c'.attestations <==> n in c.attestations && n + 1000 >= c.observedNonce)
      && (forall n :: n in c'.attestations ==> c'.attestations[n] == c.attestations[n])
  {
  }

  /** The chains differ at most in attestations that have been left behind. */
  ghost predicate SameAhead(c: Chain, d: Chain) {
    && d == c.(attestations := d.attestations)
    && Ahead(c) == Ahead(d)
    && (forall n :: n in Ahead(c) ==> c.attestations[n] == d.attestations[n])
  }

  lemma TrySameAhead(c: Chain, d: Chain, powers: Powers, i: nat)
    requires SameAhead(c, d) && i < |AttestationsAt(c, c.observedNonce + 1)|
    requires Hit(powers, AttestationsAt(c, c.observedNonce + 1)[i])
    ensures AttestationsAt(d, c.observedNonce + 1) == AttestationsAt(c, c.observedNonce + 1)
    ensures SameAhead(Try(c, powers, c.observedNonce + 1, i), Try(d, powers, c.observedNonce + 1, i))
  {
    hide Handle, HasQuorum;
    var n := c.observedNonce + 1;
    assert n in Ahead(c);
    var c', d' := Try(c, powers, n, i), Try(d, powers, n, i);
    forall m
      ensures m in Ahead(c') <==> m in Ahead(d')
    {
      assert m in Ahead(c) <==> m in Ahead(d);
    }
  }

  /** A tally does not depend on what has been left behind. */
  lemma {:induction false} TallyIgnoresHistory(c: Chain, d: Chain, powers: Powers)
    requires SameAhead(c, d)
    ensures SameAhead(Tally(c, powers), Tally(d, powers))
    decreases Ahead(c)
  {
    hide Try, Hit;
    var n := c.observedNonce + 1;
    assert n in c.attestations <==> n in Ahead(c);
    assert n in d.attestations <==> n in Ahead(d);
    var i := FirstHit(powers, AttestationsAt(c, n));
    if c.active && !c.halted && i < |AttestationsAt(c, n)| {
      TrySameAhead(c, d, powers, i);
      TryAdvances(c, powers, i);
      if !Try(c, powers, n, i).halted {
        TallyIgnoresHistory(Try(c, powers, n, i), Try(d, powers, n, i), powers);
      }
    }
  }

  lemma AttestIgnoresHistory(c: Chain, d: Chain, v: Validator, claim: Claim)
    requires SameAhead(c, d)
    ensures SameAhead(Attest(c, v, claim), Attest(d, v, claim))
  {
    var n := claim.nonce;
    var c', d' := Attest(c, v, claim), Attest(d, v, claim);
    assert n in Ahead(c) <==> n in Ahead(d);
    if n > c.observedNonce {
      assert n in c.attestations <==> n in Ahead(c);
      assert n in d.attestations <==> n in Ahead(d);
      assert AttestationsAt(c, n) == AttestationsAt(d, n);
    }
    forall m
      ensures m in Ahead(c') <==> m in Ahead(d')
    {
      assert m in Ahead(c) <==> m in Ahead(d);
    }
  }

  lemma SameVotersAbove(c: Chain, d: Chain, cutoff: nat)
    requires SameAhead(c, d) && cutoff >= c.observedNonce
    ensures VotersAbove(c, cutoff) == VotersAbove(d, cutoff)
  {
    forall n | n > cutoff
      ensures n in c.attestations <==> n in d.attestations
      ensures n in c.attestations ==> c.attestations[n] == d.attestations[n]
    {
      assert n in Ahead(c) <==> n in Ahead(d);
    }
  }

  lemma ResetIgnoresHistory(c: Chain, d: Chain, cutoff: nat)
    requires SameAhead(c, d)
    ensures SameAhead(Reset(c, cutoff), Reset(d, cutoff))
  {
    hide VotersAbove, LastEventNonce;
    if cutoff >= c.observedNonce && cutoff > 0 {
      SameVotersAbove(c, d, cutoff);
      SameLastEventNonce(c, d);
      var c', d' := Reset(c, cutoff), Reset(d, cutoff);
      assert c'.validatorNonce == d'.validatorNonce;
      forall m
        ensures m in Ahead(c') <==> m in Ahead(d')
      {
        assert m in Ahead(c) <==> m in Ahead(d);
      }
    }
  }

  lemma SameLastEventNonce(c: Chain, d: Chain)
    requires SameAhead(c, d)
    ensures forall v :: LastEventNonce(c, v) == LastEventNonce(d, v)
  {
  }

  lemma PruneIgnoresHistory(c: Chain, d: Chain)
    requires SameAhead(c, d)
    ensures SameAhead(PruneAttestations(c), PruneAttestations(d))
  {
    var c', d' := PruneAttestations(c), PruneAttestations(d);
    forall m
      ensures m in Ahead(c') <==> m in Ahead(d')
    {
      assert m in Ahead(c) <==> m in Ahead(d);
    }
  }

  /** A passing attestation at the next nonce is the only one there. */
  lemma OnlyOnePasses(c: Chain, powers: Powers, n: nat, i: nat, j: nat)
    requires OneVotePerNonce(c) && n in c.attestations && i < |c.attestations[n]| && j < |c.attestations[n]|
    requires HasQuorum(powers, c.attestations[n][i].votes) && HasQuorum(powers, c.attestations[n][j].votes)
    ensures i == j
  {
    var a, b := c.attestations[n][i], c.attestations[n][j];
    assert Voted(c, n, a) && Voted(c, n, b);
    QuorumsIntersect(powers, a.votes, b.votes);
    var v :| v in a.votes && v in b.votes;
    assert i < j ==> Apart(a, b);
    assert j < i ==> Apart(b, a);
  }

  lemma ObserveKeepsOneVotePerNonce(c: Chain, powers: Powers, i: nat)
    requires OneVotePerNonce(c) && c.observedNonce + 1 in c.attestations
    requires i < |c.attestations[c.observedNonce + 1]|
    ensures OneVotePerNonce(Observe(c, c.observedNonce + 1, i))
  {
    hide Handle;
    var n := c.observedNonce + 1;
    var c' := Observe(c, n, i);
    if !c'.halted {
      forall m, k | m in c'.attestations && 0 <= k < |c'.attestations[m]|
        ensures Voted(c', m, c'.attestations[m][k])
      {
        assert Voted(c, m, c.attestations[m][k]);
      }
      forall m, j, k | m in c'.attestations && 0 <= j < k < |c'.attestations[m]|
        ensures Apart(c'.attestations[m][j], c'.attestations[m][k])
      {
        assert Apart(c.attestations[m][j], c.attestations[m][k]);
        assert Voted(c, m, c.attestations[m][j]) && Voted(c, m, c.attestations[m][k]);
      }
    }
  }

  /** Some attestation at nonce `n` has enough votes. */
  ghost predicate Passing(c: Chain, powers: Powers, n: nat) {
    n in c.attestations && exists i :: 0 <= i < |c.attestations[n]| && HasQuorum(powers, c.attestations[n][i].votes)
  }

  /** `after` is `before` with exactly one attestation marked, one that has enough votes. */
  ghost predicate OneMarked(powers: Powers, before: seq<Attestation>, after: seq<Attestation>) {
    exists i :: 0 <= i < |before| && HasQuorum(powers, before[i].votes) && !before[i].observed
                && after == before[i := before[i].(observed := true)]
  }

  lemma TryMarks(c: Chain, powers: Powers)
    requires OneVotePerNonce(c) && !c.halted
    requires FirstHit(powers, AttestationsAt(c, c.observedNonce + 1)) < |AttestationsAt(c, c.observedNonce + 1)|
    ensures var n := c.observedNonce + 1;
            var c' := Try(c, powers, n, FirstHit(powers, AttestationsAt(c, n)));
            && OneVotePerNonce(c')
            && c'.active == c.active
            && (!c'.halted ==>
                  && c'.observedNonce == n
                  && Ahead(c') < Ahead(c)
                  && c'.attestations == c.attestations[n := AttestationsAt(c', n)]
                  && OneMarked(powers, c.attestations[n], AttestationsAt(c', n)))
  {
    hide Handle;
    var n := c.observedNonce + 1;
    var i := FirstHit(powers, AttestationsAt(c, n));
    assert Voted(c, n, c.attestations[n][i]);
    ObserveKeepsOneVotePerNonce(c, powers, i);
    TryAdvances(c, powers, i);
  }

  /** The exact effect of a tally `t` of `c`, told without following its steps. */
  ghost predicate ExactTally(c: Chain, powers: Powers, t: Chain) {
    && c.observedNonce <= t.observedNonce
    && (forall n :: c.observedNonce < n <= t.observedNonce ==> Passing(c, powers, n))
    && !Passing(c, powers, t.observedNonce + 1)
    && t.attestations.Keys == c.attestations.Keys
    && (forall n :: n in c.attestations ==>
          if c.observedNonce < n <= t.observedNonce
          then OneMarked(powers, c.attestations[n], t.attestations[n])
          else t.attestations[n] == c.attestations[n])
  }

  /**
  Tally exactness. Unless it halts the chain, the tally of a block moves the last observed nonce
  over exactly the longest run of passing nonces above it, marks exactly one attestation at each
  nonce of the run and touches no other; while the bridge is paused it changes nothing.
   */
  lemma {:induction false} TallyIsExact(c: Chain, powers: Powers)
    requires OneVotePerNonce(c) && !c.halted
    ensures OneVotePerNonce(Tally(c, powers))
    ensures !c.active ==> Tally(c, powers) == c
    ensures c.active && !Tally(c, powers).halted ==> ExactTally(c, powers, Tally(c, powers))
    decreases Ahead(c)
  {
    hide Try, OneVotePerNonce, OneMarked;
    var n := c.observedNonce + 1;
    var i := FirstHit(powers, AttestationsAt(c, n));
    if c.active {
      if i < |AttestationsAt(c, n)| {
        TryMarks(c, powers);
        var c' := Try(c, powers, n, i);
        if !c'.halted {
          TallyIsExact(c', powers);
          if !Tally(c', powers).halted {
            ExactTallyExtends(c, powers, c', Tally(c', powers));
          }
        }
      } else {
        NotPassing(c, powers);
      }
    }
  }

  lemma NotPassing(c: Chain, powers: Powers)
    requires FirstHit(powers, AttestationsAt(c, c.observedNonce + 1)) == |AttestationsAt(c, c.observedNonce + 1)|
    ensures !Passing(c, powers, c.observedNonce + 1)
  {
  }

  lemma ExactTallyExtends(c: Chain, powers: Powers, c': Chain, t: Chain)
    requires c.observedNonce + 1 in c.attestations && c'.observedNonce == c.observedNonce + 1
    requires c'.attestations == c.attestations[c.observedNonce + 1 := AttestationsAt(c', c.observedNonce + 1)]
    requires OneMarked(powers, c.attestations[c.observedNonce + 1], AttestationsAt(c', c.observedNonce + 1))
    requires ExactTally(c', powers, t)
    ensures ExactTally(c, powers, t)
  {
    assert forall m :: m > c.observedNonce + 1 ==> Passing(c', powers, m) == Passing(c, powers, m);
    assert Passing(c, powers, c.observedNonce + 1);
  }

  /** Nonce `n` belongs to the unbroken run of passing nonces above the last observed one. */
  ghost predicate InRun(c: Chain, powers: Powers, n: nat) {
    c.active && c.observedNonce < n && forall m :: c.observedNonce < m <= n ==> Passing(c, powers, m)
  }

  /** The run behind its first nonce is the run after observing that nonce. */
  lemma RunShortens(c: Chain, powers: Powers, n: nat)
    requires OneVotePerNonce(c) && !c.halted && c.active && HasNext(c, powers) && !TryNext(c, powers).halted
    ensures InRun(c, powers, n) <==> n == c.observedNonce + 1 || InRun(TryNext(c, powers), powers, n)
  {
    hide Try, OneVotePerNonce, HasQuorum;
    TryMarks(c, powers);
    var o := c.observedNonce;
    var c' := TryNext(c, powers);
    assert Passing(c, powers, o + 1);
    assert forall m :: m > o + 1 ==> Passing(c', powers, m) == Passing(c, powers, m);
  }

  lemma RunIsEmpty(c: Chain, powers: Powers, n: nat)
    requires !c.active || !HasNext(c, powers)
    ensures !InRun(c, powers, n)
  {
    if c.active {
      NotPassing(c, powers);
    }
  }

  ghost function Members(atts: seq<Attestation>): set<Attestation> {
    set a | a in atts
  }

  /** The same attestations, listed in any order within a nonce. */
  ghost predicate Reordered(c: Chain, d: Chain) {
    && d == c.(attestations := d.attestations)
    && d.attestations.Keys == c.attestations.Keys
    && (forall n :: n in c.attestations ==> Members(c.attestations[n]) == Members(d.attestations[n]))
  }

  lemma MarkedMembers(c: Chain, n: nat, i: nat)
    requires OneVotePerNonce(c) && n in c.attestations && i < |c.attestations[n]|
    ensures var atts := c.attestations[n];
            var marked := atts[i].(observed := true);
            Members(atts[i := marked]) == Members(atts) - {atts[i]} + {marked}
  {
    var atts := c.attestations[n];
    var marked := atts[i].(observed := true);
    var after := atts[i := marked];
    forall a | a in Members(atts) - {atts[i]} + {marked}
      ensures a in after
    {
      if a == marked {
        assert after[i] == a;
      } else {
        var k :| 0 <= k < |atts| && atts[k] == a;
        assert after[k] == a;
      }
    }
    forall a | a in after && a != marked
      ensures a in atts && a != atts[i]
    {
      var k :| 0 <= k < |atts| && after[k] == a;
      assert k < i ==> Apart(atts[k], atts[i]);
      assert i < k ==> Apart(atts[i], atts[k]);
    }
  }

  lemma ReorderedHit(c: Chain, d: Chain, powers: Powers, n: nat)
    requires OneVotePerNonce(c) && OneVotePerNonce(d) && Reordered(c, d) && c.observedNonce < n
    ensures var atts, btts := AttestationsAt(c, n), AttestationsAt(d, n);
            var i, j := FirstHit(powers, atts), FirstHit(powers, btts);
            && (i < |atts| <==> j < |btts|)
            && (i < |atts| ==> atts[i] == btts[j])
  {
    var atts, btts := AttestationsAt(c, n), AttestationsAt(d, n);
    var i, j := FirstHit(powers, atts), FirstHit(powers, btts);
    assert n in c.attestations ==> Members(atts) == Members(btts);
    if i < |atts| {
      assert atts[i] in Members(btts);
    }
    if j < |btts| {
      assert btts[j] in Members(atts);
      var k :| 0 <= k < |atts| && atts[k] == btts[j];
      assert Voted(c, n, atts[k]) && Voted(c, n, atts[i]);
      OnlyOnePasses(c, powers, n, i, k);
    }
  }

  lemma ReorderedTry(c: Chain, d: Chain, powers: Powers, n: nat, i: nat, j: nat)
    requires OneVotePerNonce(c) && OneVotePerNonce(d) && Reordered(c, d) && n in c.attestations
    requires i < |c.attestations[n]| && j < |d.attestations[n]| && c.attestations[n][i] == d.attestations[n][j]
    ensures Reordered(Try(c, powers, n, i), Try(d, powers, n, j))
  {
    hide Handle, HasQuorum, OneVotePerNonce;
    MarkedMembers(c, n, i);
    MarkedMembers(d, n, j);
  }

  /**
  Order independence: the attestations of one nonce may be visited in any order. The ledger, the
  observed nonce and height, and the set of attestations after the tally are the same.
   */
  lemma {:induction false} TallyIgnoresOrder(c: Chain, d: Chain, powers: Powers)
    requires OneVotePerNonce(c) && OneVotePerNonce(d) && Reordered(c, d)
    ensures Reordered(Tally(c, powers), Tally(d, powers))
    decreases Ahead(c)
  {
    hide Try, OneVotePerNonce;
    if c.active && !c.halted {
      var n := c.observedNonce + 1;
      var i, j := FirstHit(powers, AttestationsAt(c, n)), FirstHit(powers, AttestationsAt(d, n));
      ReorderedHit(c, d, powers, n);
      if i < |AttestationsAt(c, n)| {
        ReorderedTry(c, d, powers, n, i, j);
        TryMarks(c, powers);
        TryMarks(d, powers);
        var c', d' := Try(c, powers, n, i), Try(d, powers, n, j);
        if !c'.halted {
          TallyIgnoresOrder(c', d', powers);
        }
      }
    }
  }
}
