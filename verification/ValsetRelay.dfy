/** Moving the contract to the newest validator set it can accept. */
module ValsetRelay {
  import opened BridgePower
  import opened ContractLimits
  import opened Options

  /** Two thirds of the full power. */
  const POWER_TO_PASS: nat := 2863311530

  /** A validator set and the keys that have signed it. */
  datatype Offer = Offer(members: Members, signers: set<EthAddress>)

  ghost function SignedPower(current: Members, signers: set<EthAddress>): nat {
    Power(current, current.Keys * signers)
  }

  /** The current set's signatures carry the offer, and the offer can carry whatever comes next. */
  ghost predicate Submittable(current: Members, offer: Offer) {
    SignedPower(current, offer.signers) > POWER_TO_PASS && Power(offer.members, offer.members.Keys) > POWER_TO_PASS
  }

  /** More than the threshold is more than two thirds of the full power, and nothing less. */
  lemma PassesIff(power: nat)
    ensures power > POWER_TO_PASS <==> 3 * power > 2 * 4294967296
  {
  }

  /** The newest offer above `floor` and up to `n` that the current set can accept. */
  ghost function Newest(current: Members, floor: nat, offers: map<nat, Offer>, n: nat): Option<nat>
    decreases n
  {
    if n <= floor then None
    else if n in offers && Submittable(current, offers[n]) then Some(n)
    else Newest(current, floor, offers, n - 1)
  }

  lemma {:induction false} NewestIsGreatest(current: Members, floor: nat, offers: map<nat, Offer>, n: nat)
    ensures match Newest(current, floor, offers, n)
      case Some(k) =>
        && floor < k <= n && k in offers && Submittable(current, offers[k])
        && (forall j :: k < j <= n && j in offers ==> !Submittable(current, offers[j]))
      case None => forall j :: floor < j <= n && j in offers ==> !Submittable(current, offers[j])
    decreases n
  {
    if n > floor {
      NewestIsGreatest(current, floor, offers, n - 1);
    }
  }

  /** Sums the power of the members that have signed; map order does not matter. */
  method OrderSigs(current: Members, signers: set<EthAddress>) returns (ok: bool)
    ensures ok <==> 3 * Power(current, current.Keys * signers) > 2 * 4294967296
  {
    var good := 0;
    var todo := current.Keys;
    assert (current.Keys - todo) * signers == {};
    while todo != {}
      invariant todo <= current.Keys
      invariant good == Power(current, (current.Keys - todo) * signers)
      decreases todo
    {
      var x :| x in todo;
      ghost var before, after := (current.Keys - todo) * signers, (current.Keys - (todo - {x})) * signers;
      if x in signers {
        PowerSplit(current, after, x);
        assert after - {x} == before;
        good := good + current[x];
      } else {
        assert after == before;
      }
      todo := todo - {x};
    }
    assert current.Keys - todo == current.Keys;
    ok := good > POWER_TO_PASS;
  }

  method TotalPower(members: Members) returns (total: nat)
    ensures total == Power(members, members.Keys)
  {
    total := 0;
    var todo := members.Keys;
    while todo != {}
      invariant todo <= members.Keys && total + Power(members, todo) == Power(members, members.Keys)
      decreases todo
    {
      var x :| x in todo;
      PowerSplit(members, todo, x);
      total := total + members[x];
      todo := todo - {x};
    }
  }

  /** Walks down from the newest nonce; a nonce that cannot be fetched is passed over. */
  method FindLatestValidValset(latestOnCosmos: nat, current: Members, currentNonce: nat, offers: map<nat, Offer>) returns (r: Option<nat>)
    ensures r == Newest(current, currentNonce, offers, latestOnCosmos)
  {
    var n: nat := latestOnCosmos;
    while n > currentNonce
      invariant Newest(current, currentNonce, offers, n) == Newest(current, currentNonce, offers, latestOnCosmos)
      decreases n
    {
      if n in offers {
        var signed := OrderSigs(current, offers[n].signers);
        if signed {
          var total := TotalPower(offers[n].members);
          if total > POWER_TO_PASS {
            return Some(n);
          }
        }
      }
      n := n - 1;
    }
    return None;
  }

  // ---------------------------------------------------------------------------------------------
  // Repeated runs

  /** The contract after one run: it takes the result if the step is not too large. */
  ghost function Relay(offers: map<nat, Offer>, latest: nat, nonce: nat): nat
    requires nonce in offers
  {
    match Newest(offers[nonce].members, nonce, offers, latest)
    case Some(k) => if k <= nonce + MAX_NONCE_STEP then k else nonce
    case None => nonce
  }

  lemma RelayStays(offers: map<nat, Offer>, latest: nat, nonce: nat)
    requires nonce in offers
    ensures Relay(offers, latest, nonce) in offers && nonce <= Relay(offers, latest, nonce)
    ensures nonce <= latest ==> Relay(offers, latest, nonce) <= latest
  {
    NewestIsGreatest(offers[nonce].members, nonce, offers, latest);
  }

  ghost function Relays(offers: map<nat, Offer>, latest: nat, nonce: nat, runs: nat): (k: nat)
    requires nonce in offers
    ensures k in offers
    decreases runs
  {
    RelayStays(offers, latest, nonce);
    if runs == 0 then nonce else Relays(offers, latest, Relay(offers, latest, nonce), runs - 1)
  }

  /** Every set is submittable from the one before. */
  ghost predicate Chained(offers: map<nat, Offer>, from: nat, latest: nat) {
    && (forall n :: from <= n <= latest ==> n in offers)
    && (forall n :: from <= n < latest ==> Submittable(offers[n].members, offers[n + 1]))
  }

  /** No offer beyond the contract's reach is submittable, so the newest one is not out of reach. */
  ghost predicate InReach(offers: map<nat, Offer>, latest: nat, nonce: nat)
    requires nonce in offers
  {
    forall j :: nonce + MAX_NONCE_STEP < j <= latest && j in offers ==> !Submittable(offers[nonce].members, offers[j])
  }

  /** A run makes progress exactly when something is submittable and nothing beyond the contract's reach is. */
  lemma RelayAdvancesIff(offers: map<nat, Offer>, latest: nat, nonce: nat)
    requires nonce in offers
    ensures Relay(offers, latest, nonce) > nonce <==>
      && (exists j :: nonce < j <= latest && j in offers && Submittable(offers[nonce].members, offers[j]))
      && InReach(offers, latest, nonce)
  {
    NewestIsGreatest(offers[nonce].members, nonce, offers, latest);
  }

  /** Nothing out of reach gets in the way at the `k`-th nonce reached. */
  ghost predicate ClearAt(offers: map<nat, Offer>, latest: nat, nonce: nat, k: nat)
    requires nonce in offers
  {
    var at := Relays(offers, latest, nonce, k);
    at < latest ==> InReach(offers, latest, at)
  }

  /**
  With every set submittable from its predecessor, enough runs reach the newest set if and only if at every nonce
  they reach nothing beyond the contract's reach is submittable.
   */
  lemma {:induction false} RelaysReachLatestIff(offers: map<nat, Offer>, latest: nat, nonce: nat, runs: nat)
    requires nonce <= latest && Chained(offers, nonce, latest) && runs >= latest - nonce
    ensures Relays(offers, latest, nonce, runs) == latest <==> forall k :: 0 <= k < runs ==> ClearAt(offers, latest, nonce, k)
    decreases runs
  {
    hide InReach, Submittable;
    if runs > 0 {
      RelayStays(offers, latest, nonce);
      var next := Relay(offers, latest, nonce);
      assert ClearAt(offers, latest, nonce, 0) <==> (nonce < latest ==> InReach(offers, latest, nonce));
      if nonce < latest {
        assert nonce + 1 in offers && Submittable(offers[nonce].members, offers[nonce + 1]);
        RelayAdvancesIff(offers, latest, nonce);
      }
      if next > nonce || nonce == latest {
        RelaysReachLatestIff(offers, latest, next, runs - 1);
        forall k: nat | 0 < k < runs
          ensures ClearAt(offers, latest, nonce, k) <==> ClearAt(offers, latest, next, k - 1)
        {
        }
        assert forall k :: 0 <= k < runs - 1 ==> ClearAt(offers, latest, next, k) == ClearAt(offers, latest, nonce, k + 1);
      } else {
        StuckForGood(offers, latest, nonce, runs);
      }
    }
  }

  /** No offer is submittable from one more than the contract's limit before it. */
  ghost predicate NoFarOffers(offers: map<nat, Offer>, from: nat, latest: nat) {
    forall n, j :: from <= n && n + MAX_NONCE_STEP < j <= latest && n in offers && j in offers ==> !Submittable(offers[n].members, offers[j])
  }

  lemma {:induction false} RelaysStay(offers: map<nat, Offer>, latest: nat, nonce: nat, k: nat)
    requires nonce in offers
    ensures nonce <= Relays(offers, latest, nonce, k)
    decreases k
  {
    if k > 0 {
      RelayStays(offers, latest, nonce);
      RelaysStay(offers, latest, Relay(offers, latest, nonce), k - 1);
    }
  }

  /** A condition on the offers alone: then enough runs reach the newest set. It holds when all of them are within the limit. */
  lemma RelaysReachLatest(offers: map<nat, Offer>, latest: nat, nonce: nat, runs: nat)
    requires nonce <= latest && Chained(offers, nonce, latest) && runs >= latest - nonce
    ensures NoFarOffers(offers, nonce, latest) ==> Relays(offers, latest, nonce, runs) == latest
    ensures latest <= nonce + MAX_NONCE_STEP ==> NoFarOffers(offers, nonce, latest)
  {
    hide Submittable;
    if NoFarOffers(offers, nonce, latest) {
      forall k | 0 <= k < runs
        ensures ClearAt(offers, latest, nonce, k)
      {
        RelaysStay(offers, latest, nonce, k);
      }
      RelaysReachLatestIff(offers, latest, nonce, runs);
    }
  }

  lemma {:induction false} StuckForGood(offers: map<nat, Offer>, latest: nat, nonce: nat, runs: nat)
    requires nonce in offers && Relay(offers, latest, nonce) == nonce
    ensures Relays(offers, latest, nonce, runs) == nonce
    decreases runs
  {
    if runs > 0 {
      StuckForGood(offers, latest, nonce, runs - 1);
    }
  }

  /** The same offer under every nonce up to `n`. */
  function Repeated(offer: Offer, n: nat): (offers: map<nat, Offer>)
    ensures forall k :: k in offers <==> 0 <= k <= n
    ensures forall k :: k in offers ==> offers[k] == offer
  {
    if n == 0 then map[0 := offer] else Repeated(offer, n - 1)[n := offer]
  }

  /** One set, signed by its only member, a million and one times: the newest is found and is out of reach. */
  lemma OutOfReach()
    ensures var far := MAX_NONCE_STEP + 1;
      var offers := Repeated(Offer(map[0 := FULL_POWER], {0}), far);
      Chained(offers, 0, far) && Relay(offers, far, 0) == 0
  {
    hide Repeated;
    var far := MAX_NONCE_STEP + 1;
    var m: Members := map[0 := FULL_POWER];
    PowerSplit(m, {0}, 0);
    assert m.Keys == {0} && m.Keys * {0} == {0};
    assert Submittable(m, Offer(m, {0}));
    var offers := Repeated(Offer(m, {0}), far);
    assert far in offers && Newest(m, 0, offers, far) == Some(far);
  }
}
