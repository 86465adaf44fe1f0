/**
The other side of the signed messages: the arguments the Gravity contract encodes and hashes, by position. Reading
what validators sign the way the contract lays its arguments out gives back every field of the message.
 */
module ContractMessages {
  import opened Abi
  import opened AbiReader
  import opened ByteStrings
  import opened Options
  import opened SignedMessages

  /** The contract's words for the three kinds of message, without their trailing zeros. */
  const CHECKPOINT: Bytes := [0x63, 0x68, 0x65, 0x63, 0x6b, 0x70, 0x6f, 0x69, 0x6e, 0x74]
  const TRANSACTION_BATCH: Bytes :=
    [0x74, 0x72, 0x61, 0x6e, 0x73, 0x61, 0x63, 0x74, 0x69, 0x6f, 0x6e, 0x42, 0x61, 0x74, 0x63, 0x68]
  const LOGIC_CALL: Bytes := [0x6c, 0x6f, 0x67, 0x69, 0x63, 0x43, 0x61, 0x6c, 0x6c]

  /** The arguments of makeCheckpoint, in order. */
  datatype ValsetArgs = ValsetArgs(
    gravityId: Option<Bytes>, methodName: Option<Bytes>, valsetNonce: Option<nat>, validators: Option<seq<nat>>,
    powers: Option<seq<nat>>, rewardAmount: Option<nat>, rewardToken: Option<nat>)

  function ReadValset(b: Bytes): ValsetArgs {
    ValsetArgs(ReadFixed(b, 0), ReadFixed(b, 1), ReadUint(b, 2), ReadList(b, 3), ReadList(b, 4), ReadUint(b, 5),
      ReadUint(b, 6))
  }

  /** What submitBatch hashes, in order. */
  datatype BatchArgs = BatchArgs(
    gravityId: Option<Bytes>, methodName: Option<Bytes>, amounts: Option<seq<nat>>, destinations: Option<seq<nat>>,
    fees: Option<seq<nat>>, batchNonce: Option<nat>, tokenContract: Option<nat>, batchTimeout: Option<nat>)

  function ReadBatch(b: Bytes): BatchArgs {
    BatchArgs(ReadFixed(b, 0), ReadFixed(b, 1), ReadList(b, 2), ReadList(b, 3), ReadList(b, 4), ReadUint(b, 5),
      ReadUint(b, 6), ReadUint(b, 7))
  }

  /** What submitLogicCall hashes, in order. */
  datatype LogicCallArgs = LogicCallArgs(
    gravityId: Option<Bytes>, methodName: Option<Bytes>, transferAmounts: Option<seq<nat>>,
    transferTokenContracts: Option<seq<nat>>, feeAmounts: Option<seq<nat>>, feeTokenContracts: Option<seq<nat>>,
    logicContractAddress: Option<nat>, payload: Option<Bytes>, timeOut: Option<nat>, invalidationId: Option<Bytes>,
    invalidationNonce: Option<nat>)

  function ReadLogicCall(b: Bytes): LogicCallArgs {
    LogicCallArgs(ReadFixed(b, 0), ReadFixed(b, 1), ReadList(b, 2), ReadList(b, 3), ReadList(b, 4), ReadList(b, 5),
      ReadUint(b, 6), ReadDynamic(b, 7), ReadUint(b, 8), ReadFixed(b, 9), ReadUint(b, 10))
  }

  /** Left-aligned in one word. */
  ghost predicate InWord(word: Option<Bytes>, text: Bytes) {
    && word.Some? && |word.value| == WORD && |text| <= WORD && word.value[..|text|] == text
    && forall i :: |text| <= i < WORD ==> word.value[i] == 0
  }

  /** Every value and every offset fits a word. */
  ghost predicate Signable(id: Bytes, m: SignedMessage) {
    Fits(id, m) && |EncodeConfirm(id, m)| < Pow256(WORD)
  }

  lemma ArgumentReads(id: Bytes, m: SignedMessage, i: nat)
    requires Signable(id, m) && i < |Tokens(id, m)|
    ensures ReadsAs(EncodeConfirm(id, m), i, Tokens(id, m)[i])
  {
    hide ReadsAs, EncodeTokens, Pow256, ValidToken;
    ReadsBack(Tokens(id, m), i);
  }

  lemma FixedInWord(b: Bytes)
    requires |b| <= WORD
    ensures InWord(Some(Fixed(b)), b)
  {
  }

  lemma PurposeInWord(m: SignedMessage)
    ensures m.Valset? ==> InWord(Some(Purpose(m)), CHECKPOINT)
    ensures m.Batch? ==> InWord(Some(Purpose(m)), TRANSACTION_BATCH)
    ensures m.LogicCall? ==> InWord(Some(Purpose(m)), LOGIC_CALL)
  {
    assert Ascii("checkpoint") == CHECKPOINT;
    assert Ascii("transactionBatch") == TRANSACTION_BATCH;
    assert Ascii("logicCall") == LOGIC_CALL;
    FixedInWord(CHECKPOINT);
    FixedInWord(TRANSACTION_BATCH);
    FixedInWord(LOGIC_CALL);
  }

  ghost predicate SameMembers(members: seq<Member>, validators: Option<seq<nat>>, powers: Option<seq<nat>>) {
    && validators.Some? && powers.Some? && |validators.value| == |powers.value| == |members|
    && forall i :: 0 <= i < |members| ==> members[i] == Member(validators.value[i], powers.value[i])
  }

  ghost predicate SameTransactions(txs: seq<Tx>, amounts: Option<seq<nat>>, destinations: Option<seq<nat>>,
        fees: Option<seq<nat>>) {
    && amounts.Some? && destinations.Some? && fees.Some?
    && |amounts.value| == |destinations.value| == |fees.value| == |txs|
    && forall i :: 0 <= i < |txs| ==> txs[i] == Tx(amounts.value[i], destinations.value[i], fees.value[i])
  }

  ghost predicate SameCoins(coins: seq<Coin>, amounts: Option<seq<nat>>, contracts: Option<seq<nat>>) {
    && amounts.Some? && contracts.Some? && |amounts.value| == |contracts.value| == |coins|
    && forall i :: 0 <= i < |coins| ==> coins[i] == Coin(amounts.value[i], contracts.value[i])
  }

  /** A signed valset is, argument by argument, what makeCheckpoint hashes for it. */
  lemma ValsetIsCheckpoint(id: Bytes, m: SignedMessage)
    requires Signable(id, m) && m.Valset?
    ensures var args := ReadValset(EncodeConfirm(id, m));
      && InWord(args.gravityId, id) && InWord(args.methodName, CHECKPOINT)
      && args.valsetNonce == Some(m.nonce)
      && SameMembers(m.members, args.validators, args.powers)
      && args.rewardAmount == Some(m.rewardAmount)
      && args.rewardToken == if m.rewardToken.None? then Some(0) else m.rewardToken
  {
    hide EncodeConfirm, InWord, Fixed, Purpose, ValidToken, Pow256, ReadUint, ReadFixed, ReadList, ReadDynamic;
    FixedInWord(id);
    PurposeInWord(m);
    assert |Tokens(id, m)| == 7;
    ArgumentReads(id, m, 0);
    ArgumentReads(id, m, 1);
    ArgumentReads(id, m, 2);
    ArgumentReads(id, m, 3);
    ArgumentReads(id, m, 4);
    ArgumentReads(id, m, 5);
    ArgumentReads(id, m, 6);
  }

  /** A signed batch is, argument by argument, what submitBatch hashes for it. */
  lemma BatchIsSubmitted(id: Bytes, m: SignedMessage)
    requires Signable(id, m) && m.Batch?
    ensures var args := ReadBatch(EncodeConfirm(id, m));
      && InWord(args.gravityId, id) && InWord(args.methodName, TRANSACTION_BATCH)
      && SameTransactions(m.transactions, args.amounts, args.destinations, args.fees)
      && args.batchNonce == Some(m.nonce) && args.tokenContract == Some(m.token) && args.batchTimeout == Some(m.timeout)
  {
    hide EncodeConfirm, InWord, Fixed, Purpose, ValidToken, Pow256, ReadUint, ReadFixed, ReadList, ReadDynamic;
    FixedInWord(id);
    PurposeInWord(m);
    assert |Tokens(id, m)| == 8;
    ArgumentReads(id, m, 0);
    ArgumentReads(id, m, 1);
    ArgumentReads(id, m, 2);
    ArgumentReads(id, m, 3);
    ArgumentReads(id, m, 4);
    ArgumentReads(id, m, 5);
    ArgumentReads(id, m, 6);
    ArgumentReads(id, m, 7);
  }

  /** A signed logic call is, argument by argument, what submitLogicCall hashes for it. */
  lemma LogicCallIsSubmitted(id: Bytes, m: SignedMessage)
    requires Signable(id, m) && m.LogicCall?
    ensures var args := ReadLogicCall(EncodeConfirm(id, m));
      && InWord(args.gravityId, id) && InWord(args.methodName, LOGIC_CALL)
      && SameCoins(m.transfers, args.transferAmounts, args.transferTokenContracts)
      && SameCoins(m.fees, args.feeAmounts, args.feeTokenContracts)
      && args.logicContractAddress == Some(m.contract) && args.payload == Some(m.payload) && args.timeOut == Some(m.timeout)
      && InWord(args.invalidationId, m.invalidationId) && args.invalidationNonce == Some(m.invalidationNonce)
  {
    hide EncodeConfirm, InWord, Fixed, Purpose, ValidToken, Pow256, ReadUint, ReadFixed, ReadList, ReadDynamic;
    FixedInWord(id);
    FixedInWord(m.invalidationId);
    PurposeInWord(m);
    assert |Tokens(id, m)| == 11;
    ArgumentReads(id, m, 0);
    ArgumentReads(id, m, 1);
    ArgumentReads(id, m, 2);
    ArgumentReads(id, m, 3);
    ArgumentReads(id, m, 4);
    ArgumentReads(id, m, 5);
    ArgumentReads(id, m, 6);
    ArgumentReads(id, m, 7);
    ArgumentReads(id, m, 8);
    ArgumentReads(id, m, 9);
    ArgumentReads(id, m, 10);
  }
}
