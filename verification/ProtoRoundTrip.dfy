/** Every valid message survives encoding, and whatever decodes is valid and re-encodes no larger. */
module ProtoRoundTrip {
  import opened ByteStrings
  import opened Options
  import opened ProtoCodec
  import opened ProtoWire

  /** The bytes are records of fields the schema does not have. */
  ghost predicate IsUnknown(schema: Schema, u: Bytes)
    decreases |u|
  {
    u == [] || (UnknownFirst(schema, u) && IsUnknown(schema, u[Skip(u, 0).value..]))
  }

  ghost predicate UnknownFirst(schema: Schema, u: Bytes) {
    && ReadVarint(u).Some? && LegalTag(ReadVarint(u).value.value)
    && FieldNumber(ReadVarint(u).value.value) > |schema|
    && Skip(u, 0).Some?
  }

  /** Numbers fit 64 bits, lengths fit a signed 64-bit number and unknown fields are unknown. */
  ghost predicate Valid(schema: Schema, m: Message)
    decreases m
  {
    && Matches(schema, m)
    && IsUnknown(schema, m.unknown)
    && forall k :: 0 <= k < |schema| ==> ValidValue(schema[k], m.fields[k])
  }

  ghost predicate ValidValue(kind: Kind, v: Value)
    requires SameKind(kind, v)
    decreases v
  {
    match v
    case Num(n) => n < TWO_64
    case Str(t) => |t| < TWO_63
    case Msgs(items) => forall j :: 0 <= j < |items| ==> Valid(kind.schema, items[j]) && |Encode(items[j])| < TWO_63
  }

  // ---------------------------------------------------------------------------------------------
  // Round trip

  lemma OneByte(t: nat, rest: Bytes)
    requires t < 128
    ensures ReadVarint([t] + rest) == Some(Read(t, 1))
  {
    assert ([t] + rest)[0] == t;
    assert Scan([t] + rest, 0) == Some(Read(t, 1));
  }

  lemma DelimitedRoundTrip(t: Bytes, rest: Bytes)
    requires |t| < TWO_63
    ensures ReadBytes(Delimited(t) + rest) == Some((t, |Delimited(t)|))
  {
    hide ReadVarint, Varint;
    assert Delimited(t) + rest == Varint(|t|) + (t + rest);
    VarintRoundTrip(|t|, t + rest);
    var n := |Varint(|t|)|;
    assert (Varint(|t|) + (t + rest))[n..n + |t|] == t;
  }

  /** A record of a known field sets that field. */
  lemma FieldStep(schema: Schema, m: Message, k: nat, wireType: nat, b: Bytes)
    requires Small(schema) && Matches(schema, m) && k < |schema| && wireType < 4
    ensures var f := ReadField(schema[k], m.fields[k], wireType, b);
      Step(schema, m, [8 * (k + 1) + wireType] + b) ==
        if f.None? then None else Some(Stepped(m.(fields := m.fields[k := f.value.value]), 1 + f.value.count))
  {
    hide ReadVarint, ReadField, Skip;
    var t := 8 * (k + 1) + wireType;
    OneByte(t, b);
    assert ([t] + b)[1..] == b;
    assert FieldNumber(t) == k + 1 && t % 8 == wireType;
  }

  /** One record, then the rest. */
  lemma RecordThen(schema: Schema, m: Message, k: nat, wireType: nat, payload: Bytes, rest: Bytes, v: Value)
    requires Small(schema) && Matches(schema, m) && k < |schema| && wireType < 4
    requires ReadField(schema[k], m.fields[k], wireType, payload + rest) == Some(Field(v, |payload|))
    ensures Matches(schema, m.(fields := m.fields[k := v]))
    ensures Decode(schema, m, [8 * (k + 1) + wireType] + payload + rest) == Decode(schema, m.(fields := m.fields[k := v]), rest)
  {
    hide ReadField, Step;
    var b := [8 * (k + 1) + wireType] + payload + rest;
    assert b == [8 * (k + 1) + wireType] + (payload + rest);
    FieldStep(schema, m, k, wireType, payload + rest);
    assert b[1 + |payload|..] == rest;
  }

  /** A record of a number replaces whatever number was there, zero included. */
  lemma NumberReplaces(schema: Schema, m: Message, k: nat, n: nat)
    requires Small(schema) && Matches(schema, m) && k < |schema| < 16 && schema[k].Number? && n < TWO_64
    ensures Decode(schema, m, [8 * (k + 1)] + Varint(n)) == Some(m.(fields := m.fields[k := Num(n)]))
  {
    hide Small, ReadVarint, Varint, Decode;
    VarintRoundTrip(n, []);
    assert Varint(n) + [] == Varint(n);
    RecordThen(schema, m, k, 0, Varint(n), [], Num(n));
    DecodeNothing(schema, m.(fields := m.fields[k := Num(n)]));
    assert [8 * (k + 1) + 0] + Varint(n) + [] == [8 * (k + 1)] + Varint(n);
  }

  /** A record of a string replaces whatever string was there, the empty one included. */
  lemma TextReplaces(schema: Schema, m: Message, k: nat, t: Bytes)
    requires Small(schema) && Matches(schema, m) && k < |schema| < 16 && schema[k].Text? && |t| < TWO_63
    ensures Decode(schema, m, [8 * (k + 1) + 2] + Delimited(t)) == Some(m.(fields := m.fields[k := Str(t)]))
  {
    hide Small, ReadBytes, Delimited, Decode;
    DelimitedRoundTrip(t, []);
    RecordThen(schema, m, k, 2, Delimited(t), [], Str(t));
    DecodeNothing(schema, m.(fields := m.fields[k := Str(t)]));
    assert [8 * (k + 1) + 2] + Delimited(t) + [] == [8 * (k + 1) + 2] + Delimited(t);
  }

  /** Set over `prior`: the last number or string that is set wins, messages add up. */
  function Over(prior: Value, v: Value): Value {
    match v
    case Num(n) => if n == 0 then prior else v
    case Str(t) => if t == [] then prior else v
    case Msgs(items) => if prior.Msgs? then Msgs(prior.items + items) else v
  }

  /** Every kind of field is read back from its record, whatever was there before. */
  lemma {:induction false} FieldRoundTrip(schema: Schema, m: Message, k: nat, v: Value)
    requires Small(schema) && Matches(schema, m) && k < |schema|
    requires SameKind(schema[k], v) && ValidValue(schema[k], v)
    ensures Decode(schema, m, EncodeField(k + 1, v)) == Some(m.(fields := m.fields[k := Over(m.fields[k], v)]))
    decreases v, 1
  {
    hide Small, ReadVarint, ReadBytes, Delimited, Varint, Decode, EncodeItems;
    SmallSub(schema, k);
    DecodeNothing(schema, m);
    match v
    case Num(n) =>
      if n != 0 {
        NumberReplaces(schema, m, k, n);
      } else {
        assert m.fields[k := m.fields[k]] == m.fields;
      }
    case Str(t) =>
      if t != [] {
        TextReplaces(schema, m, k, t);
      } else {
        assert m.fields[k := m.fields[k]] == m.fields;
      }
    case Msgs(items) =>
      assert m.fields[k].items + items[..0] == m.fields[k].items;
      assert m.fields[k] == Msgs(m.fields[k].items);
      ItemsRoundTrip(schema, m, k, m.fields[k].items, v, 0);
  }

  lemma SmallSub(schema: Schema, k: nat)
    requires Small(schema) && k < |schema|
    ensures |schema| < 16
    ensures schema[k].Repeated? ==> Small(schema[k].schema)
  {
  }

  /** Repeated messages are added in order behind those that were there. */
  lemma {:induction false} ItemsRoundTrip(schema: Schema, m: Message, k: nat, prior: seq<Message>, v: Value, j: nat)
    requires Small(schema) && Matches(schema, m) && k < |schema| && k < 15 && v.Msgs? && schema[k].Repeated? && j <= |v.items|
    requires ValidValue(schema[k], v) && m.fields[k] == Msgs(prior + v.items[..j]) && Small(schema[k].schema)
    ensures Decode(schema, m, EncodeItems(k + 1, v, j)) == Some(m.(fields := m.fields[k := Msgs(prior + v.items)]))
    decreases v, 0, |v.items| - j
  {
    hide Small, ReadBytes, Delimited, Decode, Encode;
    if j == |v.items| {
      assert v.items[..j] == v.items;
      assert m.fields[k := Msgs(prior + v.items)] == m.fields;
      DecodeNothing(schema, m);
    } else {
      var sub, x, rest := schema[k].schema, v.items[j], EncodeItems(k + 1, v, j + 1);
      RoundTrip(sub, x);
      DelimitedRoundTrip(Encode(x), rest);
      var more := Msgs(prior + v.items[..j + 1]);
      assert prior + v.items[..j] + [x] == prior + v.items[..j + 1];
      RecordThen(schema, m, k, 2, Delimited(Encode(x)), rest, more);
      ItemsRoundTrip(schema, m.(fields := m.fields[k := more]), k, prior, v, j + 1);
      assert m.fields[k := more][k := Msgs(prior + v.items)] == m.fields[k := Msgs(prior + v.items)];
    }
  }

  lemma DecodeNothing(schema: Schema, m: Message)
    requires Matches(schema, m)
    ensures Decode(schema, m, []) == Some(m)
  {
  }

  /** The fields from position `k` on are set over those of `m`. */
  function FieldsOver(prior: seq<Value>, fields: seq<Value>, k: nat): seq<Value>
    requires |prior| == |fields|
  {
    seq(|prior|, i requires 0 <= i < |prior| => if i < k then prior[i] else Over(prior[i], fields[i]))
  }

  lemma {:induction false} FieldsRoundTrip(schema: Schema, m: Message, msg: Message, k: nat)
    requires Small(schema) && Valid(schema, msg) && Matches(schema, m) && k <= |schema|
    ensures Decode(schema, m, EncodeFrom(msg, k)) == Some(m.(fields := FieldsOver(m.fields, msg.fields, k)))
    decreases msg, 0, |schema| - k
  {
    hide EncodeField, Decode, Over, ValidValue;
    if k == |schema| {
      assert FieldsOver(m.fields, msg.fields, k) == m.fields;
      DecodeNothing(schema, m);
    } else {
      var m1 := m.(fields := m.fields[k := Over(m.fields[k], msg.fields[k])]);
      FieldRoundTrip(schema, m, k, msg.fields[k]);
      DecodeConcat(schema, m, EncodeField(k + 1, msg.fields[k]), EncodeFrom(msg, k + 1));
      FieldsRoundTrip(schema, m1, msg, k + 1);
      assert FieldsOver(m1.fields, msg.fields, k + 1) == FieldsOver(m.fields, msg.fields, k);
    }
  }

  /** Records of unknown fields are kept as they are. */
  lemma {:induction false} UnknownRoundTrip(schema: Schema, m: Message, u: Bytes)
    requires Matches(schema, m) && IsUnknown(schema, u)
    ensures Decode(schema, m, u) == Some(m.(unknown := m.unknown + u))
    decreases |u|
  {
    hide Skip, ReadVarint, FieldNumber;
    if u == [] {
      assert m.unknown + u == m.unknown;
    } else {
      var n := Skip(u, 0).value;
      var m1 := m.(unknown := m.unknown + u[..n]);
      UnknownRoundTrip(schema, m1, u[n..]);
      assert m.unknown + u[..n] + u[n..] == m.unknown + u;
    }
  }

  /** A message read over another: set fields replace, repeated fields and unknown ones are added. */
  function MessageOver(m: Message, msg: Message): Message
    requires |m.fields| == |msg.fields|
  {
    Message(FieldsOver(m.fields, msg.fields, 0), m.unknown + msg.unknown)
  }

  /** Unmarshalling into a message that is not empty. */
  lemma {:induction false} DecodeOver(schema: Schema, m: Message, msg: Message)
    requires Small(schema) && Valid(schema, msg) && Matches(schema, m)
    ensures Decode(schema, m, Encode(msg)) == Some(MessageOver(m, msg))
    decreases msg, 1
  {
    hide Small, Decode, EncodeFrom, FieldsOver;
    var m1 := m.(fields := FieldsOver(m.fields, msg.fields, 0));
    FieldsRoundTrip(schema, m, msg, 0);
    DecodeConcat(schema, m, EncodeFrom(msg, 0), msg.unknown);
    UnknownRoundTrip(schema, m1, msg.unknown);
  }

  /** Unmarshalling what was marshalled gives the message back. */
  lemma {:induction false} RoundTrip(schema: Schema, msg: Message)
    requires Small(schema) && Valid(schema, msg)
    ensures Decode(schema, Empty(schema), Encode(msg)) == Some(msg)
    decreases msg, 2
  {
    hide Small, Decode, Encode, Valid;
    DecodeOver(schema, Empty(schema), msg);
    OverEmpty(schema, msg);
  }

  lemma OverEmpty(schema: Schema, msg: Message)
    requires Valid(schema, msg)
    ensures MessageOver(Empty(schema), msg) == msg
  {
    hide ValidValue, IsUnknown;
    assert [] + msg.unknown == msg.unknown;
    forall k | 0 <= k < |schema|
      ensures Over(Default(schema[k]), msg.fields[k]) == msg.fields[k]
    {
      assert SameKind(schema[k], msg.fields[k]);
      if msg.fields[k].Msgs? {
        assert [] + msg.fields[k].items == msg.fields[k].items;
      }
    }
    assert FieldsOver(Empty(schema).fields, msg.fields, 0) == msg.fields;
  }

  /**
  Two messages read one after the other: each number and string is that of the second where the second sets it
  and that of the first where it does not; messages and unknown fields are those of both, in order.
   */
  lemma LastOneWins(schema: Schema, x: Message, y: Message)
    requires Small(schema) && Valid(schema, x) && Valid(schema, y)
    ensures var r := Decode(schema, Empty(schema), Encode(x) + Encode(y));
      && r.Some? && r.value.unknown == x.unknown + y.unknown
      && forall k :: 0 <= k < |schema| ==>
           match schema[k]
           case Number => r.value.fields[k] == if y.fields[k].n != 0 then y.fields[k] else x.fields[k]
           case Text => r.value.fields[k] == if y.fields[k].text != [] then y.fields[k] else x.fields[k]
           case Repeated(_) => r.value.fields[k] == Msgs(x.fields[k].items + y.fields[k].items)
  {
    hide Small, Decode, Encode, IsUnknown, ValidValue;
    RoundTrip(schema, x);
    DecodeConcat(schema, Empty(schema), Encode(x), Encode(y));
    DecodeOver(schema, x, y);
    var fields := FieldsOver(x.fields, y.fields, 0);
    forall k | 0 <= k < |schema|
      ensures SameKind(schema[k], x.fields[k]) && SameKind(schema[k], y.fields[k]) && fields[k] == Over(x.fields[k], y.fields[k])
    {
    }
  }

  /** The six messages of the auction module. */
  ghost predicate AuctionSchema(schema: Schema) {
    schema in {MSG_BID, PARAM, MSG_UPDATE_PARAMS, BID, AUCTION_PERIOD, AUCTION_ID}
  }

  lemma AuctionMessagesRoundTrip(schema: Schema, msg: Message)
    requires AuctionSchema(schema) && Valid(schema, msg)
    ensures Decode(schema, Empty(schema), Encode(msg)) == Some(msg)
  {
    hide Decode, Encode, Valid;
    assert Small(PARAM);
    RoundTrip(schema, msg);
  }

  // ---------------------------------------------------------------------------------------------
  // What is refused

  /** A known field under another kind's wire type, and field number zero, are errors. */
  lemma WrongTagIsRefused(schema: Schema, m: Message, num: nat, wireType: nat, b: Bytes)
    requires Small(schema) && Matches(schema, m) && num <= |schema| && wireType < 8
    requires num > 0 ==> wireType != if schema[num - 1].Number? then 0 else 2
    ensures 8 * num + wireType < 128 && Decode(schema, m, [8 * num + wireType] + b) == None
  {
    hide Skip, ReadVarint;
    FewFields(schema);
    var t := 8 * num + wireType;
    OneByte(t, b);
    assert FieldNumber(t) == num && t % 8 == wireType;
    if num > 0 {
      assert ReadField(schema[num - 1], m.fields[num - 1], wireType, ([t] + b)[1..]) == None;
    }
    assert Step(schema, m, [t] + b) == None;
  }

  /** A length that does not fit a signed 64-bit number, or runs past the end, is an error. */
  lemma LongLengthIsRefused(schema: Schema, m: Message, k: nat, n: nat, b: Bytes)
    requires Small(schema) && Matches(schema, m) && k < |schema| && !schema[k].Number? && n < TWO_64
    requires n >= 0x8000_0000_0000_0000 || n > |b|
    ensures Decode(schema, m, [8 * (k + 1) + 2] + Varint(n) + b) == None
  {
    hide ReadVarint, Varint, Skip, Decode;
    FewFields(schema);
    var rest := Varint(n) + b;
    assert [8 * (k + 1) + 2] + Varint(n) + b == [8 * (k + 1) + 2] + rest;
    VarintRoundTrip(n, b);
    assert ReadBytes(rest) == None;
    assert ReadField(schema[k], m.fields[k], 2, rest) == None;
    FieldStep(schema, m, k, 2, rest);
    NoStep(schema, m, [8 * (k + 1) + 2] + rest);
  }

  lemma NoStep(schema: Schema, m: Message, b: Bytes)
    requires Matches(schema, m) && b != [] && Step(schema, m, b) == None
    ensures Decode(schema, m, b) == None
  {
    hide Step;
  }

  /** A record that is cut short is an error, wherever it is cut. */
  lemma TruncatedIsRefused(schema: Schema, m: Message, b: Bytes, n: nat)
    requires Matches(schema, m) && Step(schema, m, b).Some? && Step(schema, m, b).value.count == |b| && 0 < n < |b|
    ensures Decode(schema, m, b[..n]) == None
  {
    hide Step;
    assert b[..n] + b[n..] == b;
    if Step(schema, m, b[..n]).Some? {
      StepExtends(schema, m, b[..n], b[n..]);
    }
  }

  // ---------------------------------------------------------------------------------------------
  // Re-encoding never grows

  lemma {:induction false} VarintMonotone(a: nat, b: nat)
    requires a <= b
    ensures 1 <= |Varint(a)| <= |Varint(b)|
    decreases b
  {
    if a >= 128 {
      VarintMonotone(a / 128, b / 128);
    } else if b >= 128 {
      VarintMonotone(0, b / 128);
    }
  }

  lemma {:induction false} EncodeFromReplace(m: Message, k: nat, v: Value, i: nat)
    requires k < |m.fields| < 16 && i <= |m.fields|
    ensures var m' := m.(fields := m.fields[k := v]);
      i <= k ==> |EncodeFrom(m', i)| + |EncodeField(k + 1, m.fields[k])| == |EncodeFrom(m, i)| + |EncodeField(k + 1, v)|
    ensures i > k ==> EncodeFrom(m.(fields := m.fields[k := v]), i) == EncodeFrom(m, i)
    decreases |m.fields| - i
  {
    hide EncodeField;
    if i < |m.fields| {
      EncodeFromReplace(m, k, v, i + 1);
    }
  }

  lemma {:induction false} EncodeItemsAppend(num: nat, items: seq<Message>, x: Message, j: nat)
    requires 0 < num < 16 && j <= |items|
    ensures |EncodeItems(num, Msgs(items + [x]), j)| == |EncodeItems(num, Msgs(items), j)| + 1 + |Delimited(Encode(x))|
    decreases |items| - j
  {
    hide Delimited, Encode;
    if j < |items| {
      EncodeItemsAppend(num, items, x, j + 1);
      assert (items + [x])[j] == items[j];
    } else {
      assert (items + [x])[j] == x;
      assert EncodeItems(num, Msgs(items + [x]), j + 1) == [];
    }
  }

  lemma {:induction false} EmptyEncodesToNothing(schema: Schema, k: nat)
    requires k <= |schema| < 16
    ensures EncodeFrom(Empty(schema), k) == []
    decreases |schema| - k
  {
    if k < |schema| {
      EmptyEncodesToNothing(schema, k + 1);
    }
  }

  lemma ReadBytesShortest(b: Bytes, t: Bytes)
    requires ReadBytes(b).Some? && |t| <= |ReadBytes(b).value.0|
    ensures |Delimited(t)| <= ReadBytes(b).value.1
  {
    hide ReadVarint, Varint;
    VarintShortest(b);
    VarintMonotone(|t|, |ReadBytes(b).value.0|);
  }

  lemma {:induction false} ReadFieldShrinks(kind: Kind, prior: Value, wireType: nat, b: Bytes, num: nat)
    requires SameKind(kind, prior) && 0 < num < 16 && ReadField(kind, prior, wireType, b).Some?
    requires kind.Repeated? ==> Small(kind.schema)
    ensures var f := ReadField(kind, prior, wireType, b).value;
      |EncodeField(num, f.value)| <= |EncodeField(num, prior)| + 1 + f.count
    decreases |b|, 2
  {
    hide Varint, ReadVarint, Small, Decode, Delimited, Encode, ReadBytes;
    match kind
    case Number => VarintShortest(b);
    case Text => ReadBytesShortest(b, ReadBytes(b).value.0);
    case Repeated(sub) =>
      var r := ReadBytes(b).value;
      DecodeShrinks(sub, Empty(sub), r.0);
      FewFields(sub);
      var x := Decode(sub, Empty(sub), r.0).value;
      EncodeEmpty(sub);
      ReadBytesShortest(b, Encode(x));
      EncodeItemsAppend(num, prior.items, x, 0);
      assert prior == Msgs(prior.items);
  }

  lemma FewFields(schema: Schema)
    requires Small(schema)
    ensures |schema| < 16
  {
  }

  lemma EncodeEmpty(schema: Schema)
    requires |schema| < 16
    ensures Encode(Empty(schema)) == []
  {
    EmptyEncodesToNothing(schema, 0);
  }

  lemma {:induction false} StepShrinks(schema: Schema, m: Message, b: Bytes)
    requires Small(schema) && Matches(schema, m) && Step(schema, m, b).Some?
    ensures var s := Step(schema, m, b).value; |Encode(s.msg)| <= |Encode(m)| + s.count
    decreases |b|, 0
  {
    hide ReadVarint, ReadField, Skip, EncodeField, FieldNumber;
    ScanBounds(b, 0);
    TagCount(b);
    var tag := ReadVarint(b).value;
    if FieldNumber(tag.value) <= |schema| {
      LegalPosition(tag.value);
      var k := FieldNumber(tag.value) - 1;
      var rest := b[tag.count..];
      var f := ReadField(schema[k], m.fields[k], tag.value % 8, rest).value;
      SmallSub(schema, k);
      ReadFieldShrinks(schema[k], m.fields[k], tag.value % 8, rest, k + 1);
      EncodeFromReplace(m, k, f.value, 0);
    } else {
      UnknownGrows(m, b[..Skip(b, 0).value]);
    }
  }

  lemma TagCount(b: Bytes)
    requires ReadVarint(b).Some?
    ensures 0 < ReadVarint(b).value.count <= |b|
  {
    ScanBounds(b, 0);
  }

  lemma {:induction false} SameFields(m: Message, u: Bytes, k: nat)
    requires k <= |m.fields|
    ensures EncodeFrom(m.(unknown := u), k) == EncodeFrom(m, k)
    decreases |m.fields| - k
  {
    if k < |m.fields| {
      SameFields(m, u, k + 1);
    }
  }

  lemma UnknownGrows(m: Message, u: Bytes)
    ensures |Encode(m.(unknown := m.unknown + u))| == |Encode(m)| + |u|
  {
    SameFields(m, m.unknown + u, 0);
  }

  /** Decoding into a message adds at most the input's length to its encoded size. */
  lemma {:induction false} DecodeShrinks(schema: Schema, m: Message, b: Bytes)
    requires Small(schema) && Matches(schema, m) && Decode(schema, m, b).Some?
    ensures |Encode(Decode(schema, m, b).value)| <= |Encode(m)| + |b|
    decreases |b|, 1
  {
    hide Step, Encode, Small;
    if b != [] {
      StepShrinks(schema, m, b);
      var s := Step(schema, m, b).value;
      DecodeShrinks(schema, s.msg, b[s.count..]);
    }
  }

  // ---------------------------------------------------------------------------------------------
  // Whatever decodes is valid

  lemma {:induction false} ScanPrefix(b: Bytes, k: nat, n: nat)
    requires Scan(b, k).Some? && Scan(b, k).value.count <= n <= |b|
    ensures Scan(b[..n], k) == Scan(b, k)
    decreases MAX_VARINT - k
  {
    ScanBounds(b, k);
    if b[0] >= 128 {
      ScanPrefix(b[1..], k + 1, n - 1);
      assert b[..n][1..] == b[1..][..n - 1];
    }
  }

  lemma PayloadPrefix(b: Bytes, wireType: nat, n: nat)
    requires Payload(b, wireType).Some? && Payload(b, wireType).value <= n <= |b|
    ensures Payload(b[..n], wireType) == Payload(b, wireType)
  {
    hide Scan;
    if wireType == 0 || wireType == 2 {
      ScanPrefix(b, 0, n);
    }
  }

  lemma SkipOnePrefix(b: Bytes, depth: nat, n: nat)
    requires SkipOne(b, depth).Some? && SkipOne(b, depth).value.count <= n <= |b|
    ensures SkipOne(b[..n], depth) == SkipOne(b, depth)
  {
    hide Scan, Payload;
    ScanBounds(b, 0);
    ScanPrefix(b, 0, n);
    var tag := ReadVarint(b).value;
    var rest := b[tag.count..];
    if Payload(rest, tag.value % 8).Some? && tag.count + Payload(rest, tag.value % 8).value <= n {
      PayloadPrefix(rest, tag.value % 8, n - tag.count);
      assert b[..n][tag.count..] == rest[..n - tag.count];
    }
  }

  /** A record can be cut out behind its end. */
  lemma {:induction false} SkipPrefix(b: Bytes, depth: nat, n: nat)
    requires Skip(b, depth).Some? && Skip(b, depth).value <= n <= |b|
    ensures Skip(b[..n], depth) == Skip(b, depth)
    decreases |b|
  {
    hide SkipOne;
    SkipOneBounds(b, depth);
    SkipOnePrefix(b, depth, n);
    var r := SkipOne(b, depth).value;
    if r.value != 0 {
      SkipPrefix(b[r.count..], r.value, n - r.count);
      assert b[..n][r.count..] == b[r.count..][..n - r.count];
    }
  }

  lemma TagWithinRecord(b: Bytes)
    requires Skip(b, 0).Some?
    ensures ReadVarint(b).Some? && ReadVarint(b).value.count <= Skip(b, 0).value
  {
    hide Payload, ReadVarint;
    SkipOneBounds(b, 0);
  }

  lemma CutRecord(schema: Schema, b: Bytes)
    requires UnknownFirst(schema, b)
    ensures UnknownFirst(schema, b[..Skip(b, 0).value]) && Skip(b[..Skip(b, 0).value], 0) == Skip(b, 0)
  {
    hide Skip, FieldNumber, Scan;
    var n := Skip(b, 0).value;
    TagWithinRecord(b);
    SkipPrefix(b, 0, n);
    ScanPrefix(b, 0, n);
  }

  lemma {:induction false} UnknownAppend(schema: Schema, u: Bytes, b: Bytes)
    requires IsUnknown(schema, u) && UnknownFirst(schema, b)
    ensures IsUnknown(schema, u + b[..Skip(b, 0).value])
    decreases |u|
  {
    hide Skip, ReadVarint, FieldNumber, LegalTag;
    var n := Skip(b, 0).value;
    if u == [] {
      CutRecord(schema, b);
      assert u + b[..n] == b[..n];
      assert b[..n][n..] == [];
    } else {
      UnknownAppend(schema, u[Skip(u, 0).value..], b);
      SkipExtends(u, b[..n], 0);
      ReadVarintExtends(u, b[..n]);
      assert (u + b[..n])[Skip(u, 0).value..] == u[Skip(u, 0).value..] + b[..n];
    }
  }

  lemma {:induction false} ReadFieldValid(kind: Kind, prior: Value, wireType: nat, b: Bytes)
    requires SameKind(kind, prior) && ReadField(kind, prior, wireType, b).Some? && |b| < TWO_63
    requires kind.Repeated? ==> Small(kind.schema)
    requires ValidValue(kind, prior)
    ensures ValidValue(kind, ReadField(kind, prior, wireType, b).value.value)
    decreases |b|, 2
  {
    hide Small, Decode, Encode, Scan, Valid;
    if kind.Repeated? {
      var sub, r := kind.schema, ReadBytes(b).value;
      EmptyValid(sub);
      DecodeValid(sub, Empty(sub), r.0);
      FewFields(sub);
      EncodeEmpty(sub);
      DecodeShrinks(sub, Empty(sub), r.0);
    }
  }

  lemma EmptyValid(schema: Schema)
    ensures Valid(schema, Empty(schema))
  {
  }

  lemma {:induction false} StepValid(schema: Schema, m: Message, b: Bytes)
    requires Small(schema) && Valid(schema, m) && Step(schema, m, b).Some? && |b| < TWO_63
    ensures Valid(schema, Step(schema, m, b).value.msg)
    decreases |b|, 0
  {
    hide Small, ReadVarint, ReadField, Skip, FieldNumber, ValidValue, IsUnknown;
    TagCount(b);
    var tag := ReadVarint(b).value;
    if FieldNumber(tag.value) <= |schema| {
      var k := FieldNumber(tag.value) - 1;
      SmallSub(schema, k);
      ReadFieldValid(schema[k], m.fields[k], tag.value % 8, b[tag.count..]);
    } else {
      UnknownAppend(schema, m.unknown, b);
    }
  }

  lemma {:induction false} DecodeValid(schema: Schema, m: Message, b: Bytes)
    requires Small(schema) && Valid(schema, m) && Decode(schema, m, b).Some? && |b| < TWO_63
    ensures Valid(schema, Decode(schema, m, b).value)
    decreases |b|, 1
  {
    hide Small, Step, ValidValue, IsUnknown;
    if b != [] {
      StepValid(schema, m, b);
      var s := Step(schema, m, b).value;
      DecodeValid(schema, s.msg, b[s.count..]);
    }
  }

  /** Any input that decodes has a normal form: it decodes to the same message and is no longer. */
  lemma NormalForm(schema: Schema, b: Bytes)
    requires Small(schema) && |b| < TWO_63 && Decode(schema, Empty(schema), b).Some?
    ensures var normal := Encode(Decode(schema, Empty(schema), b).value);
      Decode(schema, Empty(schema), normal) == Decode(schema, Empty(schema), b) && |normal| <= |b|
  {
    hide Small, Decode, Encode, Valid;
    EmptyValid(schema);
    DecodeValid(schema, Empty(schema), b);
    RoundTrip(schema, Decode(schema, Empty(schema), b).value);
    DecodeShrinks(schema, Empty(schema), b);
    FewFields(schema);
    EncodeEmpty(schema);
  }
}
