/**
The generated message codecs, for any schema with fewer than 16 fields. A schema lists the kinds of the
fields 1, 2, ... in order; the six messages of the auction module are instances.
 */
module ProtoCodec {
  import opened ByteStrings
  import opened Options
  import opened ProtoWire

  datatype Kind = Number | Text | Repeated(schema: seq<Kind>)

  type Schema = seq<Kind>

  datatype Value = Num(n: nat) | Str(text: Bytes) | Msgs(items: seq<Message>)

  /** Field values by position, and the records of unknown fields as they came. */
  datatype Message = Message(fields: seq<Value>, unknown: Bytes)

  const TWO_31: nat := 0x8000_0000

  const MSG_BID: Schema := [Number, Text, Number, Number]
  const PARAM: Schema := [Text, Text]
  const MSG_UPDATE_PARAMS: Schema := [Text, Repeated(PARAM)]
  const BID: Schema := [Number, Text]
  const AUCTION_PERIOD: Schema := [Number, Number]
  const AUCTION_ID: Schema := [Number]

  /** Tags of all fields take one byte. */
  ghost predicate Small(schema: Schema) {
    |schema| < 16 && forall k :: 0 <= k < |schema| && schema[k].Repeated? ==> Small(schema[k].schema)
  }

  // ---------------------------------------------------------------------------------------------
  // Writing

  /** Varint, then that many bytes. */
  function Delimited(b: Bytes): Bytes {
    Varint(|b|) + b
  }

  /** Defaults are left out. */
  function EncodeField(num: nat, v: Value): Bytes
    requires 0 < num < 16
    decreases v, 1
  {
    match v
    case Num(n) => if n == 0 then [] else [8 * num] + Varint(n)
    case Str(t) => if t == [] then [] else [8 * num + 2] + Delimited(t)
    case Msgs(_) => EncodeItems(num, v, 0)
  }

  /** The messages from `j` on, each as a record of its own. */
  function EncodeItems(num: nat, v: Value, j: nat): Bytes
    requires 0 < num < 16 && v.Msgs? && j <= |v.items|
    decreases v, 0, |v.items| - j
  {
    if j == |v.items| then [] else [8 * num + 2] + Delimited(Encode(v.items[j])) + EncodeItems(num, v, j + 1)
  }

  /** The fields from position `k` on. */
  function EncodeFrom(m: Message, k: nat): Bytes
    requires k <= |m.fields|
    decreases m, 0, |m.fields| - k
  {
    if k == |m.fields| || k >= 15 then [] else EncodeField(k + 1, m.fields[k]) + EncodeFrom(m, k + 1)
  }

  function Encode(m: Message): Bytes
    decreases m, 1
  {
    EncodeFrom(m, 0) + m.unknown
  }

  // ---------------------------------------------------------------------------------------------
  // Reading

  predicate SameKind(kind: Kind, v: Value) {
    match kind
    case Number => v.Num?
    case Text => v.Str?
    case Repeated(_) => v.Msgs?
  }

  predicate Matches(schema: Schema, m: Message) {
    |m.fields| == |schema| && forall k :: 0 <= k < |schema| ==> SameKind(schema[k], m.fields[k])
  }

  function Default(kind: Kind): Value {
    match kind
    case Number => Num(0)
    case Text => Str([])
    case Repeated(_) => Msgs([])
  }

  function Empty(schema: Schema): (m: Message)
    ensures Matches(schema, m)
  {
    Message(seq(|schema|, k requires 0 <= k < |schema| => Default(schema[k])), [])
  }

  datatype Field = Field(value: Value, count: nat)

  datatype Stepped = Stepped(msg: Message, count: nat)

  /** A length-delimited payload and all the bytes it takes. */
  function ReadBytes(b: Bytes): (r: Option<(Bytes, nat)>)
    ensures r.Some? ==> |r.value.0| < r.value.1 <= |b|
  {
    ScanBounds(b, 0);
    match ReadLength(b)
    case None => None
    case Some(r) => if r.count + r.value > |b| then None else Some((b[r.count..r.count + r.value], r.count + r.value))
  }

  /** The new value of a field: numbers and strings are replaced, messages appended. */
  function ReadField(kind: Kind, prior: Value, wireType: nat, b: Bytes): (r: Option<Field>)
    requires SameKind(kind, prior)
    ensures r.Some? ==> SameKind(kind, r.value.value) && 0 < r.value.count <= |b|
    decreases |b|, 2
  {
    ScanBounds(b, 0);
    match kind
    case Number =>
      if wireType != 0 then None
      else match ReadVarint(b) { case None => None case Some(r) => Some(Field(Num(r.value), r.count)) }
    case Text =>
      if wireType != 2 then None
      else match ReadBytes(b) { case None => None case Some(r) => Some(Field(Str(r.0), r.1)) }
    case Repeated(sub) =>
      if wireType != 2 then None
      else
        match ReadBytes(b)
        case None => None
        case Some(r) =>
          match Decode(sub, Empty(sub), r.0)
          case None => None
          case Some(x) => Some(Field(Msgs(prior.items + [x]), r.1))
  }

  /** The field number is the tag's upper part as a 32-bit signed number. */
  function FieldNumber(tag: nat): nat {
    tag / 8 % TWO_32
  }

  predicate LegalTag(tag: nat) {
    tag % 8 != 4 && 0 < FieldNumber(tag) < TWO_31
  }

  function Step(schema: Schema, m: Message, b: Bytes): (r: Option<Stepped>)
    requires Matches(schema, m)
    ensures r.Some? ==> Matches(schema, r.value.msg) && 0 < r.value.count <= |b|
    decreases |b|, 0
  {
    ScanBounds(b, 0);
    match ReadVarint(b)
    case None => None
    case Some(tag) =>
      if !LegalTag(tag.value) then None
      else if FieldNumber(tag.value) <= |schema| then
        var k := FieldNumber(tag.value) - 1;
        match ReadField(schema[k], m.fields[k], tag.value % 8, b[tag.count..])
        case None => None
        case Some(f) => Some(Stepped(m.(fields := m.fields[k := f.value]), tag.count + f.count))
      else
        match Skip(b, 0)
        case None => None
        case Some(n) => Some(Stepped(m.(unknown := m.unknown + b[..n]), n))
  }

  function Decode(schema: Schema, m: Message, b: Bytes): (r: Option<Message>)
    requires Matches(schema, m)
    ensures r.Some? ==> Matches(schema, r.value)
    decreases |b|, 1
  {
    if b == [] then Some(m)
    else
      match Step(schema, m, b)
      case None => None
      case Some(s) => Decode(schema, s.msg, b[s.count..])
  }

  // ---------------------------------------------------------------------------------------------
  // Decoding is an action of concatenation

  lemma ReadBytesExtends(a: Bytes, b: Bytes)
    requires ReadBytes(a).Some?
    ensures ReadBytes(a + b) == ReadBytes(a)
  {
    hide ReadVarint;
    ReadVarintExtends(a, b);
    var r := ReadLength(a).value;
    assert (a + b)[r.count..r.count + r.value] == a[r.count..r.count + r.value];
  }

  lemma ReadFieldExtends(kind: Kind, prior: Value, wireType: nat, a: Bytes, b: Bytes)
    requires SameKind(kind, prior) && ReadField(kind, prior, wireType, a).Some?
    ensures ReadField(kind, prior, wireType, a + b) == ReadField(kind, prior, wireType, a)
  {
    hide ReadVarint, ReadBytes, Decode;
    match kind
    case Number => ReadVarintExtends(a, b);
    case Text => ReadBytesExtends(a, b);
    case Repeated(_) => ReadBytesExtends(a, b);
  }

  lemma StepExtends(schema: Schema, m: Message, a: Bytes, b: Bytes)
    requires Matches(schema, m) && Step(schema, m, a).Some?
    ensures Step(schema, m, a + b) == Step(schema, m, a)
  {
    hide ReadVarint, ReadField, Skip, FieldNumber, LegalTag;
    ReadVarintExtends(a, b);
    var tag := ReadVarint(a).value;
    assert (a + b)[tag.count..] == a[tag.count..] + b;
    if FieldNumber(tag.value) <= |schema| && LegalTag(tag.value) {
      LegalPosition(tag.value);
      var k := FieldNumber(tag.value) - 1;
      ReadFieldExtends(schema[k], m.fields[k], tag.value % 8, a[tag.count..], b);
    } else {
      SkipExtends(a, b, 0);
      assert (a + b)[..Skip(a, 0).value] == a[..Skip(a, 0).value];
    }
  }

  lemma LegalPosition(tag: nat)
    requires LegalTag(tag)
    ensures FieldNumber(tag) > 0
  {
  }

  /** If `a` decodes, decoding `a + b` is decoding `b` into the result of `a`. */
  lemma {:induction false} DecodeConcat(schema: Schema, m: Message, a: Bytes, b: Bytes)
    requires Matches(schema, m) && Decode(schema, m, a).Some?
    ensures Decode(schema, m, a + b) == Decode(schema, Decode(schema, m, a).value, b)
    decreases |a|
  {
    hide Step;
    if a == [] {
      assert a + b == b;
    } else {
      StepExtends(schema, m, a, b);
      var s := Step(schema, m, a).value;
      assert (a + b)[s.count..] == a[s.count..] + b;
      DecodeConcat(schema, s.msg, a[s.count..], b);
    }
  }
}
