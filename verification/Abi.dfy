/**
The messages validators sign, under the Contract ABI Specification ("Formal Specification of the Encoding"):
one head word for each value, and a tail for each dynamic one, which its head word points to.
 */
module Abi {
  import opened ByteStrings

  const WORD: nat := 32

  function Pow256(k: nat): nat {
    if k == 0 then 1 else 256 * Pow256(k - 1)
  }

  /** Big-endian, `k` bytes. */
  function BigEndian(n: nat, k: nat): (b: Bytes)
    ensures |b| == k
  {
    if k == 0 then [] else BigEndian(n / 256, k - 1) + [n % 256]
  }

  function Word(n: nat): Bytes {
    BigEndian(n, WORD)
  }

  function Zeros(k: nat): (b: Bytes)
    ensures |b| == k && forall i :: 0 <= i < k ==> b[i] == 0
  {
    seq(k, i => 0)
  }

  /** Left-aligned, filled up to whole words. */
  function PadRight(b: Bytes): (p: Bytes)
    ensures |p| % WORD == 0 && |b| <= |p| < |b| + WORD
  {
    b + Zeros((WORD - |b| % WORD) % WORD)
  }

  /** A string in one word. */
  function Fixed(b: Bytes): (w: Bytes)
    requires |b| <= WORD
    ensures |w| == WORD && w[..|b|] == b && forall i :: |b| <= i < WORD ==> w[i] == 0
  {
    b + Zeros(WORD - |b|)
  }

  /** A number or address, one word of text, a list of numbers or addresses, or a byte string. */
  datatype Token = Uint(n: nat) | FixedBytes(text: Bytes) | List(items: seq<nat>) | DynamicBytes(data: Bytes)

  ghost predicate ValidToken(t: Token) {
    match t
    case Uint(n) => n < Pow256(WORD)
    case FixedBytes(b) => |b| == WORD
    case List(items) => |items| < Pow256(WORD) && forall i :: 0 <= i < |items| ==> items[i] < Pow256(WORD)
    case DynamicBytes(d) => |d| < Pow256(WORD)
  }

  function Words(items: seq<nat>): Bytes {
    if items == [] then [] else Word(items[0]) + Words(items[1..])
  }

  function Tail(t: Token): Bytes {
    match t
    case Uint(_) => []
    case FixedBytes(_) => []
    case List(items) => Word(|items|) + Words(items)
    case DynamicBytes(d) => Word(|d|) + PadRight(d)
  }

  function Head(t: Token, offset: nat): Bytes {
    match t
    case Uint(n) => Word(n)
    case FixedBytes(b) => b
    case List(_) => Word(offset)
    case DynamicBytes(_) => Word(offset)
  }

  function Tails(ts: seq<Token>): Bytes {
    if ts == [] then [] else Tail(ts[0]) + Tails(ts[1..])
  }

  /** Head words; `offset` is where the next tail begins. */
  function Heads(ts: seq<Token>, offset: nat): Bytes {
    if ts == [] then [] else Head(ts[0], offset) + Heads(ts[1..], offset + |Tail(ts[0])|)
  }

  function EncodeTokens(ts: seq<Token>): Bytes {
    Heads(ts, WORD * |ts|) + Tails(ts)
  }

  // ---------------------------------------------------------------------------------------------
  // Equal bytes, equal tokens

  ghost predicate SameShape(x: Token, y: Token) {
    (x.Uint? && y.Uint?) || (x.FixedBytes? && y.FixedBytes?) || (x.List? && y.List?) || (x.DynamicBytes? && y.DynamicBytes?)
  }

  ghost predicate SameShapes(xs: seq<Token>, ys: seq<Token>) {
    |xs| == |ys| && forall i :: 0 <= i < |xs| ==> SameShape(xs[i], ys[i]) && ValidToken(xs[i]) && ValidToken(ys[i])
  }

  lemma {:induction false} BigEndianInjective(a: nat, b: nat, k: nat)
    requires a < Pow256(k) && b < Pow256(k) && BigEndian(a, k) == BigEndian(b, k)
    ensures a == b
  {
    if k > 0 {
      var x, y := BigEndian(a, k), BigEndian(b, k);
      assert x[k - 1] == a % 256 && y[k - 1] == b % 256;
      assert x[..k - 1] == BigEndian(a / 256, k - 1) && y[..k - 1] == BigEndian(b / 256, k - 1);
      BigEndianInjective(a / 256, b / 256, k - 1);
    }
  }

  /** Two byte strings that start with pieces of equal length agree on them and behind them. */
  lemma Front(a: Bytes, r: Bytes, b: Bytes, s: Bytes)
    requires a + r == b + s && |a| == |b|
    ensures a == b && r == s
  {
    assert a == (a + r)[..|a|] && b == (b + s)[..|b|];
    assert r == (a + r)[|a|..] && s == (b + s)[|b|..];
  }

  lemma WordFront(a: nat, r: Bytes, b: nat, s: Bytes)
    requires a < Pow256(WORD) && b < Pow256(WORD) && Word(a) + r == Word(b) + s
    ensures a == b && r == s
  {
    hide BigEndian;
    Front(Word(a), r, Word(b), s);
    BigEndianInjective(a, b, WORD);
  }

  lemma {:induction false} WordsFront(x: seq<nat>, r: Bytes, y: seq<nat>, s: Bytes)
    requires |x| == |y| && Words(x) + r == Words(y) + s
    requires forall i :: 0 <= i < |x| ==> x[i] < Pow256(WORD) && y[i] < Pow256(WORD)
    ensures x == y && r == s
  {
    hide Word, Pow256;
    if x != [] {
      assert Words(x) + r == Word(x[0]) + (Words(x[1..]) + r);
      assert Words(y) + s == Word(y[0]) + (Words(y[1..]) + s);
      WordFront(x[0], Words(x[1..]) + r, y[0], Words(y[1..]) + s);
      WordsFront(x[1..], r, y[1..], s);
      assert x == [x[0]] + x[1..] && y == [y[0]] + y[1..];
    } else {
      assert [] + r == r && [] + s == s;
    }
  }

  lemma PadRightFront(d: Bytes, r: Bytes, e: Bytes, s: Bytes)
    requires |d| == |e| && PadRight(d) + r == PadRight(e) + s
    ensures d == e && r == s
  {
    Front(PadRight(d), r, PadRight(e), s);
    assert d == PadRight(d)[..|d|] && e == PadRight(e)[..|d|];
  }

  /** Tails are self-delimiting. */
  lemma TailFront(x: Token, r: Bytes, y: Token, s: Bytes)
    requires SameShape(x, y) && ValidToken(x) && ValidToken(y) && Tail(x) + r == Tail(y) + s
    ensures r == s
    ensures x.List? || x.DynamicBytes? ==> x == y
  {
    hide Word, Words, Pow256, PadRight;
    match x
    case Uint(_) => assert [] + r == r && [] + s == s;
    case FixedBytes(_) => assert [] + r == r && [] + s == s;
    case List(items) =>
      assert Tail(x) + r == Word(|items|) + (Words(items) + r);
      assert Tail(y) + s == Word(|y.items|) + (Words(y.items) + s);
      WordFront(|items|, Words(items) + r, |y.items|, Words(y.items) + s);
      WordsFront(items, r, y.items, s);
    case DynamicBytes(d) =>
      assert Tail(x) + r == Word(|d|) + (PadRight(d) + r);
      assert Tail(y) + s == Word(|y.data|) + (PadRight(y.data) + s);
      WordFront(|d|, PadRight(d) + r, |y.data|, PadRight(y.data) + s);
      PadRightFront(d, r, y.data, s);
  }

  lemma {:induction false} TailsInjective(xs: seq<Token>, ys: seq<Token>)
    requires SameShapes(xs, ys) && Tails(xs) == Tails(ys)
    ensures forall i :: 0 <= i < |xs| && (xs[i].List? || xs[i].DynamicBytes?) ==> xs[i] == ys[i]
  {
    hide Tail, ValidToken;
    if xs != [] {
      TailFront(xs[0], Tails(xs[1..]), ys[0], Tails(ys[1..]));
      TailsInjective(xs[1..], ys[1..]);
      assert forall i :: 1 <= i < |xs| ==> xs[i] == xs[1..][i - 1] && ys[i] == ys[1..][i - 1];
    }
  }

  lemma {:induction false} HeadsLength(ts: seq<Token>, offset: nat)
    requires forall i :: 0 <= i < |ts| ==> ValidToken(ts[i])
    ensures |Heads(ts, offset)| == WORD * |ts|
  {
    hide Tail, Word, Pow256;
    if ts != [] {
      WordLength(offset);
      WordLength(if ts[0].Uint? then ts[0].n else 0);
      HeadsLength(ts[1..], offset + |Tail(ts[0])|);
    }
  }

  lemma WordLength(n: nat)
    ensures |Word(n)| == WORD
  {
  }

  lemma {:induction false} HeadsInjective(xs: seq<Token>, o: nat, ys: seq<Token>, p: nat)
    requires SameShapes(xs, ys) && Heads(xs, o) == Heads(ys, p)
    ensures forall i :: 0 <= i < |xs| && (xs[i].Uint? || xs[i].FixedBytes?) ==> xs[i] == ys[i]
  {
    hide Tail, Word, Pow256;
    if xs != [] {
      var x, y := xs[0], ys[0];
      var r, s := Heads(xs[1..], o + |Tail(x)|), Heads(ys[1..], p + |Tail(y)|);
      WordLength(o);
      WordLength(p);
      WordLength(if x.Uint? then x.n else 0);
      WordLength(if y.Uint? then y.n else 0);
      Front(Head(x, o), r, Head(y, p), s);
      if x.Uint? {
        WordFront(x.n, [], y.n, []);
      }
      HeadsInjective(xs[1..], o + |Tail(x)|, ys[1..], p + |Tail(y)|);
      assert forall i :: 1 <= i < |xs| ==> xs[i] == xs[1..][i - 1] && ys[i] == ys[1..][i - 1];
    }
  }

  /** Token lists of one shape are told apart by their encodings, whatever the lengths inside. */
  lemma EncodingInjective(xs: seq<Token>, ys: seq<Token>)
    requires SameShapes(xs, ys) && EncodeTokens(xs) == EncodeTokens(ys)
    ensures xs == ys
  {
    hide Heads, Tails, ValidToken;
    HeadsLength(xs, WORD * |xs|);
    HeadsLength(ys, WORD * |ys|);
    Front(Heads(xs, WORD * |xs|), Tails(xs), Heads(ys, WORD * |ys|), Tails(ys));
    HeadsInjective(xs, WORD * |xs|, ys, WORD * |ys|);
    TailsInjective(xs, ys);
  }

  lemma SecondHead(ts: seq<Token>)
    requires |ts| >= 2 && ts[0].FixedBytes? && ts[1].FixedBytes? && |ts[0].text| == WORD && |ts[1].text| == WORD
    ensures |EncodeTokens(ts)| >= 2 * WORD && EncodeTokens(ts)[WORD..2 * WORD] == ts[1].text
  {
    hide Heads, Tails;
    var o := WORD * |ts|;
    FixedHead(ts, o);
    FixedHead(ts[1..], o);
    Middle(ts[0].text, ts[1].text, Heads(ts[1..][1..], o) + Tails(ts));
    assert EncodeTokens(ts) == ts[0].text + ts[1].text + (Heads(ts[1..][1..], o) + Tails(ts));
  }

  lemma FixedHead(ts: seq<Token>, o: nat)
    requires ts != [] && ts[0].FixedBytes?
    ensures Heads(ts, o) == ts[0].text + Heads(ts[1..], o)
  {
  }

  lemma Middle(a: Bytes, b: Bytes, c: Bytes)
    ensures (a + b + c)[|a|..|a| + |b|] == b
  {
  }
}
