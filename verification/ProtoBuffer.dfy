/** The generated code itself: the size, the buffer filled from its end, and the index-driven decode loops. */
module ProtoBuffer {
  import opened ByteStrings
  import opened Options
  import opened ProtoCodec
  import opened ProtoRoundTrip
  import opened ProtoWire

  // ---------------------------------------------------------------------------------------------
  // Size

  function Sov(n: nat): nat {
    if n < 128 then 1 else 1 + Sov(n / 128)
  }

  function SizeField(v: Value): nat
    decreases v, 1
  {
    match v
    case Num(n) => if n != 0 then 1 + Sov(n) else 0
    case Str(t) => if |t| > 0 then 1 + |t| + Sov(|t|) else 0
    case Msgs(_) => SizeItems(v, 0)
  }

  function SizeItems(v: Value, j: nat): nat
    requires v.Msgs? && j <= |v.items|
    decreases v, 0, |v.items| - j
  {
    if j == |v.items| then 0
    else
      var l := Size(v.items[j]);
      1 + l + Sov(l) + SizeItems(v, j + 1)
  }

  function SizeFrom(m: Message, k: nat): nat
    requires k <= |m.fields|
    decreases m, 0, |m.fields| - k
  {
    if k == |m.fields| then 0 else SizeField(m.fields[k]) + SizeFrom(m, k + 1)
  }

  function Size(m: Message): nat
    decreases m, 1
  {
    SizeFrom(m, 0) + |m.unknown|
  }

  /** Few enough fields for one-byte tags, all the way down. */
  ghost predicate Narrow(m: Message)
    decreases m
  {
    |m.fields| < 16 && forall k :: 0 <= k < |m.fields| ==> NarrowValue(m.fields[k])
  }

  ghost predicate NarrowValue(v: Value)
    decreases v
  {
    v.Msgs? ==> forall j :: 0 <= j < |v.items| ==> Narrow(v.items[j])
  }

  lemma {:induction false} SovIsLength(n: nat)
    ensures Sov(n) == |Varint(n)|
  {
    if n >= 128 {
      SovIsLength(n / 128);
    }
  }

  lemma {:induction false} SizeFieldIsLength(num: nat, v: Value)
    requires 0 < num < 16 && NarrowValue(v)
    ensures SizeField(v) == |EncodeField(num, v)|
    decreases v, 1
  {
    match v
    case Num(n) => SovIsLength(n);
    case Str(t) => SovIsLength(|t|);
    case Msgs(_) => SizeItemsIsLength(num, v, 0);
  }

  lemma {:induction false} SizeItemsIsLength(num: nat, v: Value, j: nat)
    requires 0 < num < 16 && v.Msgs? && j <= |v.items| && NarrowValue(v)
    ensures SizeItems(v, j) == |EncodeItems(num, v, j)|
    decreases v, 0, |v.items| - j
  {
    if j < |v.items| {
      SizeIsLength(v.items[j]);
      SovIsLength(Size(v.items[j]));
      SizeItemsIsLength(num, v, j + 1);
    }
  }

  lemma {:induction false} SizeFromIsLength(m: Message, k: nat)
    requires k <= |m.fields| && Narrow(m)
    ensures SizeFrom(m, k) == |EncodeFrom(m, k)|
    decreases m, 0, |m.fields| - k
  {
    if k < |m.fields| {
      SizeFieldIsLength(k + 1, m.fields[k]);
      SizeFromIsLength(m, k + 1);
    }
  }

  /** The computed size is the number of bytes written. */
  lemma {:induction false} SizeIsLength(m: Message)
    requires Narrow(m)
    ensures Size(m) == |Encode(m)|
    decreases m, 1
  {
    SizeFromIsLength(m, 0);
  }

  // ---------------------------------------------------------------------------------------------
  // Marshal

  /** `buf` now holds `piece` right before `i` and is unchanged from `i` on. */
  twostate predicate Wrote(buf: array<Byte>, j: nat, i: nat, piece: Bytes)
    reads buf
  {
    && i <= buf.Length && j + |piece| == i
    && buf[j..i] == piece
    && buf[i..] == old(buf[i..])
  }

  method EncodeVarint(buf: array<Byte>, offset: nat, v: nat) returns (base: nat)
    requires Sov(v) <= offset <= buf.Length
    modifies buf
    ensures Wrote(buf, base, offset, Varint(v))
  {
    SovIsLength(v);
    base := offset - Sov(v);
    var i, n := base, v;
    while n >= 128
      invariant base <= i && i + Sov(n) == offset
      invariant buf[base..i] + Varint(n) == Varint(v)
      invariant buf[offset..] == old(buf[offset..])
    {
      buf[i] := n % 128 + 128;
      n := n / 128;
      i := i + 1;
      assert buf[base..i] == buf[base..i - 1] + [buf[i - 1]];
    }
    buf[i] := n;
    assert buf[base..i + 1] == buf[base..i] + [buf[i]];
  }

  method WriteBack(buf: array<Byte>, i: nat, data: Bytes) returns (j: nat)
    requires |data| <= i <= buf.Length
    modifies buf
    ensures Wrote(buf, j, i, data)
  {
    j := i - |data|;
    for k := 0 to |data|
      invariant buf[j..j + k] == data[..k]
      invariant buf[i..] == old(buf[i..])
    {
      buf[j + k] := data[k];
      assert buf[j..j + k + 1] == buf[j..j + k] + [data[k]];
    }
    assert data[..|data|] == data;
  }

  /** Payload, then its length, then the tag. */
  method WriteDelimited(buf: array<Byte>, i: nat, tag: Byte, data: Bytes) returns (j: nat)
    requires 1 + |Delimited(data)| <= i <= buf.Length
    modifies buf
    ensures Wrote(buf, j, i, [tag] + Delimited(data))
  {
    SovIsLength(|data|);
    j := WriteBack(buf, i, data);
    ghost var b1 := buf[..];
    ghost var j1 := j;
    j := EncodeVarint(buf, j, |data|);
    assert buf[j..i] == buf[j..j1] + buf[j1..][..i - j1];
    assert buf[i..] == buf[j1..][i - j1..];
    ghost var j2 := j;
    j := j - 1;
    buf[j] := tag;
    assert buf[j..i] == [tag] + buf[j2..i];
  }

  method WriteField(buf: array<Byte>, i: nat, num: nat, v: Value) returns (j: nat)
    requires 0 < num < 16 && NarrowValue(v) && |EncodeField(num, v)| <= i <= buf.Length
    modifies buf
    ensures Wrote(buf, j, i, EncodeField(num, v))
    decreases v, 1
  {
    match v {
      case Num(n) =>
        j := i;
        if n != 0 {
          SovIsLength(n);
          j := EncodeVarint(buf, i, n);
          ghost var j1 := j;
          j := j - 1;
          buf[j] := 8 * num;
          assert buf[j..i] == [8 * num] + buf[j1..i];
        }
      case Str(t) =>
        j := i;
        if t != [] {
          j := WriteDelimited(buf, i, 8 * num + 2, t);
        }
      case Msgs(_) =>
        j := WriteItems(buf, i, num, v);
    }
  }

  method WriteItems(buf: array<Byte>, i: nat, num: nat, v: Value) returns (j: nat)
    requires 0 < num < 16 && v.Msgs? && NarrowValue(v) && |EncodeItems(num, v, 0)| <= i <= buf.Length
    modifies buf
    ensures Wrote(buf, j, i, EncodeItems(num, v, 0))
    decreases v, 0
  {
    j := i;
    var k := |v.items|;
    while k > 0
      invariant 0 <= k <= |v.items|
      invariant j + |EncodeItems(num, v, k)| == i && buf[j..i] == EncodeItems(num, v, k)
      invariant |EncodeItems(num, v, 0)| - |EncodeItems(num, v, k)| <= j
      invariant buf[i..] == old(buf[i..])
    {
      k := k - 1;
      var encoded := Marshal(v.items[k]);
      LongerFront(num, v, k);
      ghost var j1 := j;
      j := WriteDelimited(buf, j, 8 * num + 2, encoded[..]);
      assert buf[j..i] == buf[j..j1] + buf[j1..][..i - j1];
      assert buf[i..] == buf[j1..][i - j1..];
    }
  }

  lemma {:induction false} LongerFront(num: nat, v: Value, k: nat)
    requires 0 < num < 16 && v.Msgs? && k < |v.items|
    ensures |EncodeItems(num, v, k)| <= |EncodeItems(num, v, 0)|
    ensures EncodeItems(num, v, k) == [8 * num + 2] + Delimited(Encode(v.items[k])) + EncodeItems(num, v, k + 1)
    decreases k
  {
    if k > 0 {
      LongerFront(num, v, k - 1);
    }
  }

  lemma {:induction false} LongerFields(m: Message, k: nat)
    requires k < |m.fields| < 16
    ensures |EncodeFrom(m, k)| <= |EncodeFrom(m, 0)|
    ensures EncodeFrom(m, k) == EncodeField(k + 1, m.fields[k]) + EncodeFrom(m, k + 1)
    decreases k
  {
    if k > 0 {
      LongerFields(m, k - 1);
    }
  }

  lemma NoFieldsLeft(m: Message)
    ensures EncodeFrom(m, |m.fields|) == []
  {
  }

  /** Fills the buffer from the end: unknown fields first, then the fields from the last to the first. */
  method Marshal(m: Message) returns (buf: array<Byte>)
    requires Narrow(m)
    ensures fresh(buf) && buf[..] == Encode(m)
    decreases m, 2
  {
    hide EncodeFrom, EncodeField, Size, NarrowValue;
    SizeIsLength(m);
    NoFieldsLeft(m);
    buf := new Byte[Size(m)];
    var i: nat := WriteBack(buf, buf.Length, m.unknown);
    var k := |m.fields|;
    while k > 0
      invariant 0 <= k <= |m.fields|
      invariant i <= buf.Length && i + |EncodeFrom(m, k)| == |EncodeFrom(m, 0)|
      invariant buf[i..] == EncodeFrom(m, k) + m.unknown
    {
      k := k - 1;
      LongerFields(m, k);
      ghost var i1 := i;
      i := WriteField(buf, i, k + 1, m.fields[k]);
      assert buf[i..] == buf[i..i1] + buf[i1..];
    }
    assert i == 0 && buf[..] == buf[0..];
  }

  // ---------------------------------------------------------------------------------------------
  // Unmarshal

  /** What a read at index `i` of the data yields. */
  datatype At = At(value: nat, next: nat)

  function Shifted(r: Option<Read>, i: nat): Option<At> {
    match r
    case None => None
    case Some(x) => Some(At(x.value, i + x.count))
  }

  /** The varint loop: `power` is one shifted by seven for each byte read. */
  method ReadVarintAt(data: Bytes, start: nat) returns (r: Option<At>)
    requires start <= |data|
    ensures r == Shifted(ReadVarint(data[start..]), start)
  {
    hide Scan, Behind;
    var i: nat, value: nat, power: nat, k: nat := start, 0, 1, 0;
    ghost var sum: nat := 0;
    NothingRead(Scan(data[start..], 0));
    while true
      invariant i == start + k <= |data| && k <= MAX_VARINT
      invariant value == sum % TWO_64
      invariant Scan(data[start..], 0) == Behind(Scan(data[i..], k), sum, power, k)
      decreases MAX_VARINT - k
    {
      ScanNext(data, i, k, sum, power);
      if k >= MAX_VARINT || i >= |data| {
        return None;
      }
      var low := data[i] % 128 * power;
      AddModulo(sum, low);
      value := (value + low % TWO_64) % TWO_64;
      sum := sum + low;
      i := i + 1;
      if data[i - 1] < 128 {
        return Some(At(value, i));
      }
      power, k := 128 * power, k + 1;
    }
  }

  /** A read that continues behind `k` bytes worth `sum`. */
  function Behind(r: Option<Read>, sum: nat, power: nat, k: nat): Option<Read> {
    match r
    case None => None
    case Some(x) => Some(Read(sum + power * x.value, k + x.count))
  }

  lemma NothingRead(r: Option<Read>)
    ensures Behind(r, 0, 1, 0) == r
  {
  }

  /** One turn of the loop. */
  lemma ScanNext(data: Bytes, i: nat, k: nat, sum: nat, power: nat)
    requires i <= |data|
    ensures k >= MAX_VARINT || i >= |data| ==> Behind(Scan(data[i..], k), sum, power, k) == None
    ensures k < MAX_VARINT && i < |data| ==>
      var low := data[i] % 128 * power;
      Behind(Scan(data[i..], k), sum, power, k) ==
        if data[i] < 128 then Some(Read(sum + low, k + 1)) else Behind(Scan(data[i + 1..], k + 1), sum + low, 128 * power, k + 1)
  {
    if k < MAX_VARINT && i < |data| {
      assert data[i..][1..] == data[i + 1..];
      var next := Scan(data[i + 1..], k + 1);
      if data[i] >= 128 && next.Some? {
        Distribute(power, data[i] - 128, next.value.value);
      } else {
        assert power * data[i] == data[i] * power;
      }
    }
  }

  lemma Distribute(p: nat, a: nat, b: nat)
    ensures p * (a + 128 * b) == a * p + 128 * p * b
  {
  }

  lemma AddModulo(a: nat, b: nat)
    ensures (a % TWO_64 + b % TWO_64) % TWO_64 == (a + b) % TWO_64
  {
  }

  /** The loop that steps over an unknown record, counting open groups. */
  method SkipAt(data: Bytes, start: nat) returns (r: Option<nat>)
    requires start <= |data|
    ensures r == match Skip(data[start..], 0) { case None => None case Some(n) => Some(start + n) }
  {
    hide SkipOne, ReadVarint, Payload;
    var i, depth := start, 0;
    while i < |data|
      invariant start <= i <= |data|
      invariant Skip(data[start..], 0) == match Skip(data[i..], depth) { case None => None case Some(n) => Some(i - start + n) }
      decreases |data| - i
    {
      var one := SkipOneAt(data, i, depth);
      SkipOneBounds(data[i..], depth);
      if one.None? {
        return None;
      }
      assert data[i..][one.value.next - i..] == data[one.value.next..];
      depth := one.value.value;
      i := one.value.next;
      if depth == 0 {
        return Some(i);
      }
    }
    assert data[i..] == [];
    SkipOneBounds([], depth);
    return None;
  }

  method SkipOneAt(data: Bytes, start: nat, depth: nat) returns (r: Option<At>)
    requires start <= |data|
    ensures r == Shifted(SkipOne(data[start..], depth), start)
  {
    hide ReadVarint, Scan;
    var tag := ReadVarintAt(data, start);
    if tag.None? {
      return None;
    }
    ReadVarintExtends(data[start..], []);
    assert data[start..] + [] == data[start..];
    var i := tag.value.next;
    assert data[start..][i - start..] == data[i..];
    var wireType := tag.value.value % 8;
    if wireType == 3 {
      return Some(At(depth + 1, i));
    } else if wireType == 4 {
      return if depth == 0 then None else Some(At(depth - 1, i));
    }
    var after := PayloadAt(data, i, wireType);
    if after.None? || after.value > |data| {
      return None;
    }
    return Some(At(depth, after.value));
  }

  method PayloadAt(data: Bytes, start: nat, wireType: nat) returns (r: Option<nat>)
    requires start <= |data|
    ensures r == match Payload(data[start..], wireType) { case None => None case Some(n) => Some(start + n) }
  {
    hide Scan;
    if wireType == 0 {
      var v := ReadVarintAt(data, start);
      return if v.None? then None else Some(v.value.next);
    } else if wireType == 1 {
      return Some(start + 8);
    } else if wireType == 2 {
      var l := ReadVarintAt(data, start);
      return if l.None? || l.value.value >= TWO_63 then None else Some(l.value.next + l.value.value);
    } else if wireType == 5 {
      return Some(start + 4);
    }
    return None;
  }

  method ReadBytesAt(data: Bytes, start: nat) returns (r: Option<(nat, nat)>)
    requires start <= |data|
    ensures r.None? <==> ReadBytes(data[start..]).None?
    ensures r.Some? ==>
      && start < r.value.0 <= r.value.1 <= |data|
      && ReadBytes(data[start..]) == Some((data[r.value.0..r.value.1], r.value.1 - start))
  {
    hide ReadVarint;
    var l := ReadVarintAt(data, start);
    if l.None? || l.value.value >= TWO_63 || l.value.next + l.value.value > |data| {
      return None;
    }
    var i, post := l.value.next, l.value.next + l.value.value;
    assert data[start..][i - start..post - start] == data[i..post];
    ReadVarintExtends(data[start..], []);
    assert data[start..] + [] == data[start..];
    return Some((i, post));
  }

  method ReadFieldAt(kind: Kind, prior: Value, wireType: nat, data: Bytes, start: nat) returns (r: Option<(Value, nat)>)
    requires start <= |data| && SameKind(kind, prior)
    ensures r.None? <==> ReadField(kind, prior, wireType, data[start..]).None?
    ensures r.Some? ==>
      && start < r.value.1 <= |data|
      && ReadField(kind, prior, wireType, data[start..]) == Some(Field(r.value.0, r.value.1 - start))
    decreases |data| - start, 2
  {
    hide ReadVarint, ReadBytes, Decode;
    match kind
    case Number =>
      if wireType != 0 {
        return None;
      }
      var v := ReadVarintAt(data, start);
      if v.None? {
        return None;
      }
      ReadVarintExtends(data[start..], []);
      assert data[start..] + [] == data[start..];
      return Some((Num(v.value.value), v.value.next));
    case Text =>
      if wireType != 2 {
        return None;
      }
      var t := ReadBytesAt(data, start);
      if t.None? {
        return None;
      }
      return Some((Str(data[t.value.0..t.value.1]), t.value.1));
    case Repeated(sub) =>
      if wireType != 2 {
        return None;
      }
      var t := ReadBytesAt(data, start);
      if t.None? {
        return None;
      }
      var x := Unmarshal(sub, Empty(sub), data[t.value.0..t.value.1]);
      if x.None? {
        return None;
      }
      return Some((Msgs(prior.items + [x.value]), t.value.1));
  }

  /** One pass of the decode loop. */
  method StepAt(schema: Schema, m: Message, data: Bytes, start: nat) returns (r: Option<(Message, nat)>)
    requires start <= |data| && Matches(schema, m)
    ensures r.None? <==> Step(schema, m, data[start..]).None?
    ensures r.Some? ==>
      && start < r.value.1 <= |data|
      && Step(schema, m, data[start..]) == Some(Stepped(r.value.0, r.value.1 - start))
    decreases |data| - start, 0
  {
    hide ReadVarint, ReadField, Skip, FieldNumber;
    var tag := ReadVarintAt(data, start);
    if tag.None? || !LegalTag(tag.value.value) {
      return None;
    }
    ReadVarintExtends(data[start..], []);
    assert data[start..] + [] == data[start..];
    var i := tag.value.next;
    var num := FieldNumber(tag.value.value);
    assert data[start..][i - start..] == data[i..];
    if num <= |schema| {
      var f := ReadFieldAt(schema[num - 1], m.fields[num - 1], tag.value.value % 8, data, i);
      if f.None? {
        return None;
      }
      return Some((m.(fields := m.fields[num - 1 := f.value.0]), f.value.1));
    }
    var after := SkipAt(data, start);
    if after.None? {
      return None;
    }
    assert data[start..][..after.value - start] == data[start..after.value];
    return Some((m.(unknown := m.unknown + data[start..after.value]), after.value));
  }

  /** The decode loop reads no byte outside the data and ends; it computes `Decode`. */
  method Unmarshal(schema: Schema, into: Message, data: Bytes) returns (r: Option<Message>)
    requires Matches(schema, into)
    ensures r == Decode(schema, into, data)
    decreases |data|, 1
  {
    hide Step;
    var i, m := 0, into;
    assert data[0..] == data;
    while i < |data|
      invariant i <= |data| && Matches(schema, m)
      invariant Decode(schema, m, data[i..]) == Decode(schema, into, data)
      decreases |data| - i
    {
      var s := StepAt(schema, m, data, i);
      if s.None? {
        return None;
      }
      assert data[i..][s.value.1 - i..] == data[s.value.1..];
      m, i := s.value.0, s.value.1;
    }
    return Some(m);
  }

  // ---------------------------------------------------------------------------------------------
  // The buffer-level round trip

  lemma {:induction false} ValidIsNarrow(schema: Schema, m: Message)
    requires Small(schema) && Valid(schema, m)
    ensures Narrow(m)
    decreases m
  {
    forall k | 0 <= k < |m.fields|
      ensures NarrowValue(m.fields[k])
    {
      assert ValidValue(schema[k], m.fields[k]);
      if m.fields[k].Msgs? {
        forall j | 0 <= j < |m.fields[k].items|
          ensures Narrow(m.fields[k].items[j])
        {
          ValidIsNarrow(schema[k].schema, m.fields[k].items[j]);
        }
      }
    }
  }

  /** Filling a buffer with a valid message and reading it back gives the message. */
  method MarshalThenUnmarshal(schema: Schema, m: Message) returns (r: Option<Message>)
    requires Small(schema) && Valid(schema, m)
    ensures r == Some(m)
  {
    ValidIsNarrow(schema, m);
    var buf := Marshal(m);
    RoundTrip(schema, m);
    r := Unmarshal(schema, Empty(schema), buf[..]);
  }
}
