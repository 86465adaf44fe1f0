/**
The wire level of Protocol Buffers: varints and skipping, as in the sections "Base 128 Varints",
"Length-Delimited Records" and "Groups" of the Encoding document. Which error a bad input reports is not
modelled: `None` stands for all of them.
 */
module ProtoWire {
  import opened ByteStrings
  import opened Options

  /** A value read and the number of bytes it took. */
  datatype Read = Read(value: nat, count: nat)

  const TWO_32: nat := 0x1_0000_0000
  const TWO_63: nat := 0x8000_0000_0000_0000
  const TWO_64: nat := 0x1_0000_0000_0000_0000

  /** A varint has at most ten bytes. */
  const MAX_VARINT: nat := 10

  function Varint(n: nat): Bytes {
    if n < 128 then [n] else [n % 128 + 128] + Varint(n / 128)
  }

  /** Reads on after `k` bytes; the shift check comes before the end-of-input check. */
  function Scan(b: Bytes, k: nat): Option<Read>
    decreases MAX_VARINT - k
  {
    if k >= MAX_VARINT || b == [] then None
    else if b[0] < 128 then Some(Read(b[0], 1))
    else
      match Scan(b[1..], k + 1)
      case None => None
      case Some(r) => Some(Read(b[0] - 128 + 128 * r.value, r.count + 1))
  }

  /** High bits beyond the 64th fall off. */
  function ReadVarint(b: Bytes): Option<Read> {
    match Scan(b, 0)
    case None => None
    case Some(r) => Some(Read(r.value % TWO_64, r.count))
  }

  /** A length prefix; one that is negative as a signed number is an error. */
  function ReadLength(b: Bytes): Option<Read> {
    match ReadVarint(b)
    case None => None
    case Some(r) => if r.value >= TWO_63 then None else Some(r)
  }

  /** Bytes a field's payload takes after its tag, outside of groups. */
  function Payload(b: Bytes, wireType: nat): Option<nat> {
    if wireType == 0 then match Scan(b, 0) { case None => None case Some(r) => Some(r.count) }
    else if wireType == 1 then Some(8)
    else if wireType == 2 then match ReadLength(b) { case None => None case Some(r) => Some(r.count + r.value) }
    else if wireType == 5 then Some(4)
    else None
  }

  /** One tag with its payload, and the group depth after it. */
  function SkipOne(b: Bytes, depth: nat): Option<Read> {
    match ReadVarint(b)
    case None => None
    case Some(tag) =>
      var wireType := tag.value % 8;
      if wireType == 3 then Some(Read(depth + 1, tag.count))
      else if wireType == 4 then if depth == 0 then None else Some(Read(depth - 1, tag.count))
      else if tag.count > |b| then None
      else
        match Payload(b[tag.count..], wireType)
        case None => None
        case Some(n) => if tag.count + n > |b| then None else Some(Read(depth, tag.count + n))
  }

  /** Length of the record at the front, with whole groups. */
  function Skip(b: Bytes, depth: nat): (n: Option<nat>)
    ensures n.Some? ==> 0 < n.value <= |b|
    decreases |b|
  {
    SkipOneBounds(b, depth);
    match SkipOne(b, depth)
    case None => None
    case Some(r) =>
      if r.value == 0 then Some(r.count)
      else
        match Skip(b[r.count..], r.value)
        case None => None
        case Some(n) => Some(r.count + n)
  }

  lemma {:induction false} ScanBounds(b: Bytes, k: nat)
    ensures Scan(b, k).Some? ==> 0 < Scan(b, k).value.count <= |b| && Scan(b, k).value.count + k <= MAX_VARINT
    decreases MAX_VARINT - k
  {
    if k < MAX_VARINT && b != [] && b[0] >= 128 {
      ScanBounds(b[1..], k + 1);
    }
  }

  lemma {:induction false} ScanIff(b: Bytes, k: nat)
    ensures Scan(b, k).Some? <==> exists i :: 0 <= i < 10 - k && i < |b| && b[i] < 128
    decreases MAX_VARINT - k
  {
    if k < MAX_VARINT && b != [] && b[0] >= 128 {
      ScanIff(b[1..], k + 1);
      if Scan(b[1..], k + 1).Some? {
        var i :| 0 <= i < 10 - (k + 1) && i < |b[1..]| && b[1..][i] < 128;
        assert b[i + 1] < 128;
      }
      if i :| 0 <= i < 10 - k && i < |b| && b[i] < 128 {
        assert b[1..][i - 1] < 128;
      }
    }
  }

  /** A varint is read exactly when one of the first ten bytes ends it. */
  lemma VarintEnds(b: Bytes)
    ensures ReadVarint(b).Some? <==> exists i :: 0 <= i < 10 && i < |b| && b[i] < 128
  {
    ScanIff(b, 0);
  }

  lemma SkipOneBounds(b: Bytes, depth: nat)
    ensures SkipOne(b, depth).Some? ==> 0 < SkipOne(b, depth).value.count <= |b|
  {
    ScanBounds(b, 0);
  }

  // ---------------------------------------------------------------------------------------------
  // More input behind a complete item changes nothing

  lemma {:induction false} ScanExtends(a: Bytes, b: Bytes, k: nat)
    requires Scan(a, k).Some?
    ensures Scan(a + b, k) == Scan(a, k)
    decreases MAX_VARINT - k
  {
    if a[0] >= 128 {
      ScanExtends(a[1..], b, k + 1);
      assert (a + b)[1..] == a[1..] + b;
    }
  }

  lemma ReadVarintExtends(a: Bytes, b: Bytes)
    requires ReadVarint(a).Some?
    ensures ReadVarint(a + b) == ReadVarint(a)
    ensures 0 < ReadVarint(a).value.count <= |a|
  {
    hide Scan;
    ScanExtends(a, b, 0);
    ScanBounds(a, 0);
  }

  lemma PayloadExtends(a: Bytes, b: Bytes, wireType: nat)
    requires Payload(a, wireType).Some?
    ensures Payload(a + b, wireType) == Payload(a, wireType)
  {
    hide Scan, ReadVarint;
    if wireType == 0 {
      ScanExtends(a, b, 0);
    } else if wireType == 2 {
      ReadVarintExtends(a, b);
    }
  }

  lemma SkipOneExtends(a: Bytes, b: Bytes, depth: nat)
    requires SkipOne(a, depth).Some?
    ensures SkipOne(a + b, depth) == SkipOne(a, depth)
  {
    hide Payload, ReadVarint;
    ReadVarintExtends(a, b);
    var tag := ReadVarint(a).value;
    assert (a + b)[tag.count..] == a[tag.count..] + b;
    if Payload(a[tag.count..], tag.value % 8).Some? {
      PayloadExtends(a[tag.count..], b, tag.value % 8);
    }
  }

  lemma {:induction false} SkipExtends(a: Bytes, b: Bytes, depth: nat)
    requires Skip(a, depth).Some?
    ensures Skip(a + b, depth) == Skip(a, depth)
    decreases |a|
  {
    hide SkipOne;
    SkipOneBounds(a, depth);
    SkipOneExtends(a, b, depth);
    var r := SkipOne(a, depth).value;
    if r.value != 0 {
      SkipExtends(a[r.count..], b, r.value);
      assert (a + b)[r.count..] == a[r.count..] + b;
    }
  }

  // ---------------------------------------------------------------------------------------------
  // Varints round trip, and are the shortest form

  function Pow128(k: nat): nat {
    if k == 0 then 1 else 128 * Pow128(k - 1)
  }

  lemma {:induction false} VarintLength(n: nat, k: nat)
    requires k > 0 && n < Pow128(k)
    ensures 1 <= |Varint(n)| <= k
    decreases k
  {
    if n >= 128 {
      VarintLength(n / 128, k - 1);
    }
  }

  lemma VarintFits(n: nat)
    requires n < TWO_64
    ensures 1 <= |Varint(n)| <= MAX_VARINT
  {
    assert Pow128(5) == 0x8_0000_0000 by {
      assert Pow128(2) == 16384 && Pow128(3) == 128 * Pow128(2);
      assert Pow128(4) == 128 * Pow128(3);
    }
    assert Pow128(8) == 128 * 128 * 128 * Pow128(5) by {
      assert Pow128(6) == 128 * Pow128(5) && Pow128(7) == 128 * Pow128(6);
    }
    assert Pow128(10) == 128 * 128 * Pow128(8) by {
      assert Pow128(9) == 128 * Pow128(8);
    }
    VarintLength(n, 10);
  }

  lemma {:induction false} ScanVarint(n: nat, rest: Bytes, k: nat)
    requires |Varint(n)| + k <= MAX_VARINT
    ensures Scan(Varint(n) + rest, k) == Some(Read(n, |Varint(n)|))
    decreases n
  {
    if n >= 128 {
      ScanVarint(n / 128, rest, k + 1);
      assert (Varint(n) + rest)[1..] == Varint(n / 128) + rest;
    }
  }

  lemma VarintRoundTrip(n: nat, rest: Bytes)
    requires n < TWO_64
    ensures ReadVarint(Varint(n) + rest) == Some(Read(n, |Varint(n)|))
  {
    VarintFits(n);
    ScanVarint(n, rest, 0);
  }

  lemma {:induction false} ScanRange(b: Bytes, k: nat)
    requires Scan(b, k).Some?
    ensures Scan(b, k).value.value < Pow128(Scan(b, k).value.count)
    decreases MAX_VARINT - k
  {
    if b[0] >= 128 {
      ScanRange(b[1..], k + 1);
    } else {
      assert Pow128(1) == 128;
    }
  }

  /** Writing back what was read never takes more bytes. */
  lemma VarintShortest(b: Bytes)
    requires ReadVarint(b).Some?
    ensures |Varint(ReadVarint(b).value.value)| <= ReadVarint(b).value.count
  {
    ScanBounds(b, 0);
    ScanRange(b, 0);
    var r := Scan(b, 0).value;
    assert r.value % TWO_64 <= r.value;
    VarintLength(r.value % TWO_64, r.count);
  }

  // ---------------------------------------------------------------------------------------------
  // What a varint stands for

  /** Seven bits of each byte, the first byte lowest. */
  function Groups(b: Bytes): nat {
    if b == [] then 0 else Groups(b[..|b| - 1]) + b[|b| - 1] % 128 * Pow128(|b| - 1)
  }

  lemma {:induction false} GroupsFirst(x: Byte, rest: Bytes)
    ensures Groups([x] + rest) == x % 128 + 128 * Groups(rest)
    decreases |rest|
  {
    var b := [x] + rest;
    if rest == [] {
      assert b[..0] == [] && b[0] == x;
      assert Groups([]) == 0 && Pow128(0) == 1;
    } else {
      var front, last := rest[..|rest| - 1], rest[|rest| - 1];
      GroupsFirst(x, front);
      assert b[..|b| - 1] == [x] + front && b[|b| - 1] == last;
      assert last % 128 * Pow128(|rest|) == 128 * (last % 128 * Pow128(|rest| - 1));
    }
  }

  lemma {:induction false} ScanValue(b: Bytes, k: nat)
    requires Scan(b, k).Some?
    ensures var r := Scan(b, k).value;
      && 0 < r.count <= |b| && b[r.count - 1] < 128 && (forall i :: 0 <= i < r.count - 1 ==> b[i] >= 128)
      && r.value == Groups(b[..r.count])
    decreases MAX_VARINT - k
  {
    var r := Scan(b, k).value;
    if b[0] < 128 {
      GroupsFirst(b[0], []);
      assert b[..1] == [b[0]] + [];
    } else {
      ScanValue(b[1..], k + 1);
      GroupsFirst(b[0], b[1..][..r.count - 1]);
      assert b[..r.count] == [b[0]] + b[1..][..r.count - 1];
      assert forall i :: 1 <= i < r.count ==> b[i] == b[1..][i - 1];
    }
  }

  /** A varint takes the bytes up to the first below 128 and stands for their groups of seven bits, modulo 2^64. */
  lemma VarintValue(b: Bytes)
    requires ReadVarint(b).Some?
    ensures var r := ReadVarint(b).value;
      && 0 < r.count <= |b| && b[r.count - 1] < 128 && (forall i :: 0 <= i < r.count - 1 ==> b[i] >= 128)
      && r.value == Groups(b[..r.count]) % 0x1_0000_0000_0000_0000
  {
    ScanValue(b, 0);
  }
}
