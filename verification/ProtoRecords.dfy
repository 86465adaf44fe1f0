/**
Records as the Encoding document of Protocol Buffers lays them out, groups included, and the proof that skipping a
field nobody knows skips exactly one of them.
 */
module ProtoRecords {
  import opened ByteStrings
  import opened Options
  import opened ProtoWire
  import Codec = ProtoCodec
  import RoundTrip = ProtoRoundTrip

  datatype Record =
    | VarintRecord(field: nat, n: nat)
    | Fixed64Record(field: nat, bytes: Bytes)
    | BytesRecord(field: nat, data: Bytes)
    | GroupRecord(field: nat, inner: seq<Record>)
    | Fixed32Record(field: nat, bytes: Bytes)

  ghost predicate WellFormed(r: Record)
    decreases r
  {
    && r.field < 0x2000_0000
    && match r
       case VarintRecord(_, n) => n < TWO_64
       case Fixed64Record(_, bytes) => |bytes| == 8
       case BytesRecord(_, data) => |data| < TWO_63
       case GroupRecord(_, inner) => forall i :: 0 <= i < |inner| ==> WellFormed(inner[i])
       case Fixed32Record(_, bytes) => |bytes| == 4
  }

  /** Field number and wire type. */
  function Tag(field: nat, wireType: nat): Bytes {
    Varint(8 * field + wireType)
  }

  function Write(r: Record): Bytes
    decreases r
  {
    match r
    case VarintRecord(field, n) => Tag(field, 0) + Varint(n)
    case Fixed64Record(field, bytes) => Tag(field, 1) + bytes
    case BytesRecord(field, data) => Tag(field, 2) + (Varint(|data|) + data)
    case GroupRecord(field, inner) => Tag(field, 3) + WriteAll(inner) + Tag(field, 4)
    case Fixed32Record(field, bytes) => Tag(field, 5) + bytes
  }

  function WriteAll(rs: seq<Record>): Bytes
    decreases rs
  {
    if rs == [] then [] else Write(rs[0]) + WriteAll(rs[1..])
  }

  /** Where a skip ends that has passed `n` bytes and goes on as `more` says. */
  function After(n: nat, more: Option<nat>): Option<nat> {
    match more
    case None => None
    case Some(k) => Some(n + k)
  }

  /** What is left to skip behind a whole record: nothing outside of groups. */
  function Rest(b: Bytes, depth: nat): Option<nat> {
    if depth == 0 then Some(0) else Skip(b, depth)
  }

  lemma TagReads(field: nat, wireType: nat, rest: Bytes)
    requires field < 0x2000_0000 && wireType < 8
    ensures ReadVarint(Tag(field, wireType) + rest) == Some(Read(8 * field + wireType, |Tag(field, wireType)|))
  {
    hide ReadVarint, Varint;
    VarintRoundTrip(8 * field + wireType, rest);
  }

  lemma PayloadReads(wireType: nat, payload: Bytes, rest: Bytes)
    requires wireType == 1 ==> |payload| == 8
    requires wireType == 5 ==> |payload| == 4
    requires wireType == 0 ==> exists n :: 0 <= n < TWO_64 && payload == Varint(n)
    requires wireType == 2 ==> exists data: Bytes :: |data| < TWO_63 && payload == Varint(|data|) + data
    requires wireType == 0 || wireType == 1 || wireType == 2 || wireType == 5
    ensures Payload(payload + rest, wireType) == Some(|payload|)
  {
    hide Varint, Scan;
    if wireType == 0 {
      var n :| 0 <= n < TWO_64 && payload == Varint(n);
      VarintRoundTrip(n, rest);
    } else if wireType == 2 {
      var data: Bytes :| |data| < TWO_63 && payload == Varint(|data|) + data;
      assert payload + rest == Varint(|data|) + (data + rest);
      VarintRoundTrip(|data|, data + rest);
    }
  }

  lemma PlainStep(field: nat, wireType: nat, payload: Bytes, rest: Bytes, depth: nat)
    requires field < 0x2000_0000 && wireType != 3 && wireType != 4 && wireType < 8
    requires Payload(payload + rest, wireType) == Some(|payload|)
    ensures SkipOne(Tag(field, wireType) + (payload + rest), depth) == Some(Read(depth, |Tag(field, wireType)| + |payload|))
  {
    hide Payload, Tag, ReadVarint;
    var tag := Tag(field, wireType);
    TagReads(field, wireType, payload + rest);
    assert (tag + (payload + rest))[|tag|..] == payload + rest;
    assert (8 * field + wireType) % 8 == wireType;
  }

  lemma MarkerStep(field: nat, rest: Bytes, depth: nat)
    requires field < 0x2000_0000
    ensures SkipOne(Tag(field, 3) + rest, depth) == Some(Read(depth + 1, |Tag(field, 3)|))
    ensures depth > 0 ==> SkipOne(Tag(field, 4) + rest, depth) == Some(Read(depth - 1, |Tag(field, 4)|))
  {
    hide Payload, Tag, ReadVarint;
    TagReads(field, 3, rest);
    TagReads(field, 4, rest);
    assert (8 * field + 3) % 8 == 3 && (8 * field + 4) % 8 == 4;
  }

  /** Skipping goes on behind its first step. */
  lemma SkipGoesOn(front: Bytes, rest: Bytes, depth: nat, after: nat)
    requires SkipOne(front + rest, depth) == Some(Read(after, |front|))
    ensures Skip(front + rest, depth) == After(|front|, Rest(rest, after))
  {
    hide SkipOne;
    assert (front + rest)[|front|..] == rest;
  }

  /** A tag and its payload outside of the two group markers. */
  lemma SkipsPlain(field: nat, wireType: nat, payload: Bytes, rest: Bytes, depth: nat)
    requires field < 0x2000_0000 && wireType != 3 && wireType != 4 && wireType < 8
    requires Payload(payload + rest, wireType) == Some(|payload|)
    ensures Skip(Tag(field, wireType) + payload + rest, depth) == After(|Tag(field, wireType) + payload|, Rest(rest, depth))
  {
    hide Payload, Tag, Skip, SkipOne;
    PlainStep(field, wireType, payload, rest, depth);
    assert Tag(field, wireType) + (payload + rest) == Tag(field, wireType) + payload + rest;
    SkipGoesOn(Tag(field, wireType) + payload, rest, depth, depth);
  }

  lemma SkipsStart(field: nat, rest: Bytes, depth: nat)
    requires field < 0x2000_0000
    ensures Skip(Tag(field, 3) + rest, depth) == After(|Tag(field, 3)|, Skip(rest, depth + 1))
  {
    hide Tag, Skip, SkipOne;
    MarkerStep(field, rest, depth);
    SkipGoesOn(Tag(field, 3), rest, depth, depth + 1);
  }

  lemma SkipsEnd(field: nat, rest: Bytes, depth: nat)
    requires field < 0x2000_0000
    ensures Skip(Tag(field, 4) + rest, depth + 1) == After(|Tag(field, 4)|, Rest(rest, depth))
  {
    hide Tag, Skip, SkipOne;
    MarkerStep(field, rest, depth + 1);
    SkipGoesOn(Tag(field, 4), rest, depth + 1, depth);
  }

  /** Skipping passes exactly one record, whatever it is, whatever follows, at any depth of groups. */
  lemma {:induction false} SkipsOneRecord(r: Record, rest: Bytes, depth: nat)
    requires WellFormed(r)
    ensures Skip(Write(r) + rest, depth) == After(|Write(r)|, Rest(rest, depth))
    decreases r
  {
    hide Skip, Varint, Payload, Tag;
    match r
    case VarintRecord(field, n) =>
      PayloadReads(0, Varint(n), rest);
      SkipsPlain(field, 0, Varint(n), rest, depth);
    case Fixed64Record(field, bytes) =>
      PayloadReads(1, bytes, rest);
      SkipsPlain(field, 1, bytes, rest, depth);
    case BytesRecord(field, data) =>
      PayloadReads(2, Varint(|data|) + data, rest);
      SkipsPlain(field, 2, Varint(|data|) + data, rest, depth);
    case GroupRecord(field, inner) =>
      var body, end := WriteAll(inner), Tag(field, 4);
      assert Write(r) + rest == Tag(field, 3) + (body + (end + rest));
      SkipsStart(field, body + (end + rest), depth);
      SkipsRecords(inner, end + rest, depth + 1);
      SkipsEnd(field, rest, depth);
    case Fixed32Record(field, bytes) =>
      PayloadReads(5, bytes, rest);
      SkipsPlain(field, 5, bytes, rest, depth);
  }

  lemma {:induction false} SkipsRecords(rs: seq<Record>, rest: Bytes, depth: nat)
    requires depth > 0 && forall i :: 0 <= i < |rs| ==> WellFormed(rs[i])
    ensures Skip(WriteAll(rs) + rest, depth) == After(|WriteAll(rs)|, Skip(rest, depth))
    decreases rs
  {
    hide Skip, Write;
    if rs == [] {
      assert WriteAll(rs) + rest == rest;
    } else {
      var first, more := Write(rs[0]), WriteAll(rs[1..]);
      assert WriteAll(rs) + rest == first + (more + rest);
      SkipsOneRecord(rs[0], more + rest, depth);
      SkipsRecords(rs[1..], rest, depth);
    }
  }

  /** An unassigned wire type, the end of a group nobody opened and a payload that is cut short are errors. */
  lemma SkipRefuses(field: nat, wireType: nat, rest: Bytes, depth: nat)
    requires field < 0x2000_0000 && wireType < 8
    requires
      || wireType == 6 || wireType == 7
      || (wireType == 4 && depth == 0)
      || (wireType == 1 && |rest| < 8)
      || (wireType == 5 && |rest| < 4)
    ensures Skip(Tag(field, wireType) + rest, depth) == None
  {
    hide Tag, ReadVarint;
    TagReads(field, wireType, rest);
    assert SkipOne(Tag(field, wireType) + rest, depth) == None;
  }

  /** A record of a field the schema does not have is kept as it is. */
  lemma UnknownRecordIsKept(schema: Codec.Schema, m: Codec.Message, r: Record)
    requires Codec.Matches(schema, m) && WellFormed(r) && r.field > |schema|
    ensures Codec.Decode(schema, m, Write(r)) == Some(m.(unknown := m.unknown + Write(r)))
  {
    hide Skip, ReadVarint, Varint, Codec.Decode;
    var u := Write(r);
    assert u + [] == u;
    SkipsOneRecord(r, [], 0);
    FirstTag(r);
    assert u[|u|..] == [];
    assert RoundTrip.IsUnknown(schema, []);
    RoundTrip.UnknownRoundTrip(schema, m, u);
  }

  lemma FirstTag(r: Record)
    requires WellFormed(r)
    ensures ReadVarint(Write(r)).Some? && Codec.FieldNumber(ReadVarint(Write(r)).value.value) == r.field
    ensures ReadVarint(Write(r)).value.value % 8 != 4
  {
    hide ReadVarint, Varint, Tag, WriteAll;
    match r
    case VarintRecord(field, n) => TagReads(field, 0, Varint(n));
    case Fixed64Record(field, bytes) => TagReads(field, 1, bytes);
    case BytesRecord(field, data) => TagReads(field, 2, Varint(|data|) + data);
    case GroupRecord(field, inner) =>
      assert Write(r) == Tag(field, 3) + (WriteAll(inner) + Tag(field, 4));
      TagReads(field, 3, WriteAll(inner) + Tag(field, 4));
    case Fixed32Record(field, bytes) => TagReads(field, 5, bytes);
  }

  /** A field number that is not positive as a signed 32-bit number is an error. */
  lemma IllegalFieldIsRefused(schema: Codec.Schema, m: Codec.Message, tag: nat, b: Bytes)
    requires Codec.Matches(schema, m) && tag < TWO_64
    requires tag / 8 % 0x1_0000_0000 == 0 || tag / 8 % 0x1_0000_0000 >= 0x8000_0000
    ensures Codec.Decode(schema, m, Varint(tag) + b) == None
  {
    hide Skip, ReadVarint, Varint, Codec.Decode;
    VarintRoundTrip(tag, b);
    assert Codec.Step(schema, m, Varint(tag) + b) == None;
    VarintNotEmpty(tag);
    RoundTrip.NoStep(schema, m, Varint(tag) + b);
  }

  lemma VarintNotEmpty(n: nat)
    ensures Varint(n) != []
  {
  }
}
