/** The three messages validators sign are unambiguous, within a kind and across kinds. */
module SignedMessages {
  import opened Abi
  import opened ByteStrings
  import opened Options

  datatype Member = Member(address: nat, power: nat)

  datatype Tx = Tx(amount: nat, destination: nat, fee: nat)

  datatype Coin = Coin(amount: nat, token: nat)

  /** Only what goes into the signed bytes. */
  datatype SignedMessage =
    | Valset(nonce: nat, members: seq<Member>, rewardAmount: nat, rewardToken: Option<nat>)
    | Batch(transactions: seq<Tx>, nonce: nat, token: nat, timeout: nat)
    | LogicCall(transfers: seq<Coin>, fees: seq<Coin>, contract: nat, payload: Bytes, timeout: nat,
        invalidationId: Bytes, invalidationNonce: nat)

  function Ascii(s: string): (b: Bytes)
    requires forall i :: 0 <= i < |s| ==> s[i] as int < 128
    ensures |b| == |s|
  {
    seq(|s|, i requires 0 <= i < |s| => s[i] as int)
  }

  const ZERO_ADDRESS: nat := 0

  function Addresses(ms: seq<Member>): seq<nat> {
    seq(|ms|, i requires 0 <= i < |ms| => ms[i].address)
  }

  function MemberPowers(ms: seq<Member>): seq<nat> {
    seq(|ms|, i requires 0 <= i < |ms| => ms[i].power)
  }

  function TxAmounts(ts: seq<Tx>): seq<nat> {
    seq(|ts|, i requires 0 <= i < |ts| => ts[i].amount)
  }

  function Destinations(ts: seq<Tx>): seq<nat> {
    seq(|ts|, i requires 0 <= i < |ts| => ts[i].destination)
  }

  function TxFees(ts: seq<Tx>): seq<nat> {
    seq(|ts|, i requires 0 <= i < |ts| => ts[i].fee)
  }

  function Amounts(cs: seq<Coin>): seq<nat> {
    seq(|cs|, i requires 0 <= i < |cs| => cs[i].amount)
  }

  function Contracts(cs: seq<Coin>): seq<nat> {
    seq(|cs|, i requires 0 <= i < |cs| => cs[i].token)
  }

  function RewardToken(t: Option<nat>): nat {
    match t
    case Some(a) => a
    case None => ZERO_ADDRESS
  }

  /** Every number fits a word and both one-word strings fit one. */
  ghost predicate Fits(id: Bytes, m: SignedMessage) {
    && |id| <= WORD
    && (m.LogicCall? ==> |m.invalidationId| <= WORD)
    && forall i :: 0 <= i < |Tokens(id, m)| ==> ValidToken(Tokens(id, m)[i])
  }

  function Purpose(m: SignedMessage): Bytes {
    match m
    case Valset(_, _, _, _) => Fixed(Ascii("checkpoint"))
    case Batch(_, _, _, _) => Fixed(Ascii("transactionBatch"))
    case LogicCall(_, _, _, _, _, _, _) => Fixed(Ascii("logicCall"))
  }

  function Tokens(id: Bytes, m: SignedMessage): seq<Token>
    requires |id| <= WORD && (m.LogicCall? ==> |m.invalidationId| <= WORD)
  {
    match m
    case Valset(nonce, members, amount, token) =>
      [FixedBytes(Fixed(id)), FixedBytes(Purpose(m)), Uint(nonce), List(Addresses(members)), List(MemberPowers(members)),
       Uint(amount), Uint(RewardToken(token))]
    case Batch(txs, nonce, token, timeout) =>
      [FixedBytes(Fixed(id)), FixedBytes(Purpose(m)), List(TxAmounts(txs)), List(Destinations(txs)), List(TxFees(txs)),
       Uint(nonce), Uint(token), Uint(timeout)]
    case LogicCall(transfers, fees, contract, payload, timeout, invalidationId, invalidationNonce) =>
      [FixedBytes(Fixed(id)), FixedBytes(Purpose(m)), List(Amounts(transfers)), List(Contracts(transfers)),
       List(Amounts(fees)), List(Contracts(fees)), Uint(contract), DynamicBytes(payload), Uint(timeout),
       FixedBytes(Fixed(invalidationId)), Uint(invalidationNonce)]
  }

  function EncodeConfirm(id: Bytes, m: SignedMessage): Bytes
    requires |id| <= WORD && (m.LogicCall? ==> |m.invalidationId| <= WORD)
  {
    EncodeTokens(Tokens(id, m))
  }

  // ---------------------------------------------------------------------------------------------
  // The loops that take the lists apart

  method ToArrays(members: seq<Member>) returns (addresses: seq<nat>, powers: seq<nat>)
    ensures addresses == Addresses(members) && powers == MemberPowers(members)
  {
    addresses, powers := [], [];
    for i := 0 to |members|
      invariant addresses == Addresses(members[..i]) && powers == MemberPowers(members[..i])
    {
      addresses, powers := addresses + [members[i].address], powers + [members[i].power];
    }
    assert members[..|members|] == members;
  }

  method CheckpointValues(txs: seq<Tx>) returns (amounts: seq<nat>, destinations: seq<nat>, fees: seq<nat>)
    ensures amounts == TxAmounts(txs) && destinations == Destinations(txs) && fees == TxFees(txs)
  {
    amounts, destinations, fees := [], [], [];
    for i := 0 to |txs|
      invariant amounts == TxAmounts(txs[..i]) && destinations == Destinations(txs[..i]) && fees == TxFees(txs[..i])
    {
      amounts, destinations, fees := amounts + [txs[i].amount], destinations + [txs[i].destination], fees + [txs[i].fee];
    }
    assert txs[..|txs|] == txs;
  }

  method SplitCoins(coins: seq<Coin>) returns (amounts: seq<nat>, contracts: seq<nat>)
    ensures amounts == Amounts(coins) && contracts == Contracts(coins)
  {
    amounts, contracts := [], [];
    for i := 0 to |coins|
      invariant amounts == Amounts(coins[..i]) && contracts == Contracts(coins[..i])
    {
      amounts, contracts := amounts + [coins[i].amount], contracts + [coins[i].token];
    }
    assert coins[..|coins|] == coins;
  }

  method EncodeValsetConfirm(id: Bytes, valset: SignedMessage) returns (b: Bytes)
    requires valset.Valset? && |id| <= WORD
    ensures b == EncodeConfirm(id, valset)
  {
    var addresses, powers := ToArrays(valset.members);
    var rewardToken := if valset.rewardToken.Some? then valset.rewardToken.value else ZERO_ADDRESS;
    b := EncodeTokens([FixedBytes(Fixed(id)), FixedBytes(Fixed(Ascii("checkpoint"))), Uint(valset.nonce), List(addresses),
      List(powers), Uint(valset.rewardAmount), Uint(rewardToken)]);
  }

  method EncodeTxBatchConfirm(id: Bytes, batch: SignedMessage) returns (b: Bytes)
    requires batch.Batch? && |id| <= WORD
    ensures b == EncodeConfirm(id, batch)
  {
    var amounts, destinations, fees := CheckpointValues(batch.transactions);
    b := EncodeTokens([FixedBytes(Fixed(id)), FixedBytes(Fixed(Ascii("transactionBatch"))), List(amounts), List(destinations),
      List(fees), Uint(batch.nonce), Uint(batch.token), Uint(batch.timeout)]);
  }

  method EncodeLogicCallConfirm(id: Bytes, call: SignedMessage) returns (b: Bytes)
    requires call.LogicCall? && |id| <= WORD && |call.invalidationId| <= WORD
    ensures b == EncodeConfirm(id, call)
  {
    var transferAmounts, transferContracts := SplitCoins(call.transfers);
    var feeAmounts, feeContracts := SplitCoins(call.fees);
    b := EncodeTokens([FixedBytes(Fixed(id)), FixedBytes(Fixed(Ascii("logicCall"))), List(transferAmounts), List(transferContracts),
      List(feeAmounts), List(feeContracts), Uint(call.contract), DynamicBytes(call.payload), Uint(call.timeout),
      FixedBytes(Fixed(call.invalidationId)), Uint(call.invalidationNonce)]);
  }

  // ---------------------------------------------------------------------------------------------
  // Unambiguous

  /** The two identifications the encoding makes: no reward token is the zero address, and short ids are padded. */
  function Canonical(m: SignedMessage): SignedMessage {
    match m
    case Valset(_, _, _, token) => m.(rewardToken := Some(RewardToken(token)))
    case Batch(_, _, _, _) => m
    case LogicCall(_, _, _, _, _, invalidationId, _) =>
      if |invalidationId| <= WORD then m.(invalidationId := Fixed(invalidationId)) else m
  }

  lemma MembersFromLists(a: seq<Member>, b: seq<Member>)
    requires Addresses(a) == Addresses(b) && MemberPowers(a) == MemberPowers(b)
    ensures a == b
  {
    assert |Addresses(a)| == |a| && |Addresses(b)| == |b|;
    forall i | 0 <= i < |a|
      ensures a[i] == b[i]
    {
      assert Addresses(a)[i] == Addresses(b)[i] && MemberPowers(a)[i] == MemberPowers(b)[i];
    }
  }

  lemma TxsFromLists(a: seq<Tx>, b: seq<Tx>)
    requires TxAmounts(a) == TxAmounts(b) && Destinations(a) == Destinations(b) && TxFees(a) == TxFees(b)
    ensures a == b
  {
    assert |TxAmounts(a)| == |a| && |TxAmounts(b)| == |b|;
    forall i | 0 <= i < |a|
      ensures a[i] == b[i]
    {
      assert TxAmounts(a)[i] == TxAmounts(b)[i] && Destinations(a)[i] == Destinations(b)[i] && TxFees(a)[i] == TxFees(b)[i];
    }
  }

  lemma CoinsFromLists(a: seq<Coin>, b: seq<Coin>)
    requires Amounts(a) == Amounts(b) && Contracts(a) == Contracts(b)
    ensures a == b
  {
    assert |Amounts(a)| == |a| && |Amounts(b)| == |b|;
    forall i | 0 <= i < |a|
      ensures a[i] == b[i]
    {
      assert Amounts(a)[i] == Amounts(b)[i] && Contracts(a)[i] == Contracts(b)[i];
    }
  }

  /** The second word of an encoding says what it is for. */
  lemma SecondWord(id: Bytes, m: SignedMessage)
    requires |id| <= WORD && (m.LogicCall? ==> |m.invalidationId| <= WORD)
    ensures |EncodeConfirm(id, m)| >= 2 * WORD && EncodeConfirm(id, m)[WORD..2 * WORD] == Purpose(m)
  {
    hide Purpose, EncodeTokens;
    PurposeLength(m);
    SecondHead(Tokens(id, m));
  }

  lemma PurposeLength(m: SignedMessage)
    ensures |Purpose(m)| == WORD
  {
  }

  lemma PurposesDiffer(m: SignedMessage, n: SignedMessage)
    requires Purpose(m) == Purpose(n)
    ensures (m.Valset? <==> n.Valset?) && (m.Batch? <==> n.Batch?)
  {
    assert m.Valset? ==> Purpose(m)[0] == 'c' as int;
    assert m.Batch? ==> Purpose(m)[0] == 't' as int;
    assert m.LogicCall? ==> Purpose(m)[0] == 'l' as int;
    assert n.Valset? ==> Purpose(n)[0] == 'c' as int;
    assert n.Batch? ==> Purpose(n)[0] == 't' as int;
    assert n.LogicCall? ==> Purpose(n)[0] == 'l' as int;
  }

  lemma SameTokensSameMessage(id: Bytes, m: SignedMessage, id': Bytes, m': SignedMessage)
    requires Fits(id, m) && Fits(id', m') && Tokens(id, m) == Tokens(id', m')
    requires (m.Valset? <==> m'.Valset?) && (m.Batch? <==> m'.Batch?)
    ensures Fixed(id) == Fixed(id') && Canonical(m) == Canonical(m')
  {
    hide ValidToken, Fixed, Purpose, Addresses, MemberPowers, TxAmounts, Destinations, TxFees, Amounts, Contracts;
    var ts, us := Tokens(id, m), Tokens(id', m');
    assert ts[0] == us[0];
    match m
    case Valset(_, members, _, _) =>
      assert ts[2] == us[2] && ts[3] == us[3] && ts[4] == us[4] && ts[5] == us[5] && ts[6] == us[6];
      MembersFromLists(members, m'.members);
    case Batch(txs, _, _, _) =>
      assert ts[2] == us[2] && ts[3] == us[3] && ts[4] == us[4] && ts[5] == us[5] && ts[6] == us[6] && ts[7] == us[7];
      TxsFromLists(txs, m'.transactions);
    case LogicCall(transfers, fees, _, _, _, _, _) =>
      assert ts[2] == us[2] && ts[3] == us[3] && ts[4] == us[4] && ts[5] == us[5];
      assert ts[6] == us[6] && ts[7] == us[7] && ts[8] == us[8] && ts[9] == us[9] && ts[10] == us[10];
      CoinsFromLists(transfers, m'.transfers);
      CoinsFromLists(fees, m'.fees);
  }

  /** Two signed messages have equal bytes exactly when they are the same message for the same bridge. */
  lemma Unambiguous(id: Bytes, m: SignedMessage, id': Bytes, m': SignedMessage)
    requires Fits(id, m) && Fits(id', m')
    ensures EncodeConfirm(id, m) == EncodeConfirm(id', m') <==> Fixed(id) == Fixed(id') && Canonical(m) == Canonical(m')
  {
    hide EncodeTokens, ValidToken, Purpose;
    if EncodeConfirm(id, m) == EncodeConfirm(id', m') {
      SecondWord(id, m);
      SecondWord(id', m');
      PurposesDiffer(m, m');
      EncodingInjective(Tokens(id, m), Tokens(id', m'));
      SameTokensSameMessage(id, m, id', m');
    }
    if Fixed(id) == Fixed(id') && Canonical(m) == Canonical(m') {
      SameMessageSameTokens(id, m, id', m');
    }
  }

  lemma SameMessageSameTokens(id: Bytes, m: SignedMessage, id': Bytes, m': SignedMessage)
    requires Fits(id, m) && Fits(id', m') && Fixed(id) == Fixed(id') && Canonical(m) == Canonical(m')
    ensures Tokens(id, m) == Tokens(id', m')
  {
  }

  lemma ShorterIsPadded(a: Bytes, b: Bytes)
    requires |a| <= WORD && |b| <= WORD && Fixed(a) == Fixed(b)
    ensures |a| < |b| ==> 0 in b
  {
    if |a| < |b| {
      assert Fixed(a)[|a|] == 0 && Fixed(b)[|a|] == b[|a|];
    }
  }

  /** Ids without zero bytes are kept apart by the padding. */
  lemma FixedInjective(a: Bytes, b: Bytes)
    requires |a| <= WORD && |b| <= WORD && Fixed(a) == Fixed(b)
    requires 0 !in a && 0 !in b
    ensures a == b
  {
    ShorterIsPadded(a, b);
    ShorterIsPadded(b, a);
    assert a == Fixed(a)[..|a|] && b == Fixed(b)[..|b|];
  }
}
