/**
Reading an ABI encoding by position, as the Contract ABI Specification lays it out: argument `i` is head word `i`, and
for a dynamic argument that word is where its tail begins.
 */
module AbiReader {
  import opened Abi
  import opened ByteStrings
  import opened Options

  /** The number a big-endian byte string stands for. */
  function Number(b: Bytes): nat {
    if b == [] then 0 else 256 * Number(b[..|b| - 1]) + b[|b| - 1]
  }

  /** The word that begins at byte `at`. */
  function WordAt(b: Bytes, at: nat): Option<nat> {
    if at + WORD <= |b| then Some(Number(b[at..at + WORD])) else None
  }

  function ReadUint(b: Bytes, i: nat): Option<nat> {
    WordAt(b, WORD * i)
  }

  function ReadFixed(b: Bytes, i: nat): Option<Bytes> {
    if WORD * i + WORD <= |b| then Some(b[WORD * i..WORD * i + WORD]) else None
  }

  function ReadList(b: Bytes, i: nat): Option<seq<nat>> {
    match ReadUint(b, i)
    case None => None
    case Some(at) =>
      match WordAt(b, at)
      case None => None
      case Some(n) => WordsAt(b, at + WORD, n)
  }

  /** The `n` words from byte `at` on. */
  function WordsAt(b: Bytes, at: nat, n: nat): Option<seq<nat>>
    decreases n
  {
    if n == 0 then Some([])
    else
      match WordAt(b, at)
      case None => None
      case Some(first) =>
        match WordsAt(b, at + WORD, n - 1)
        case None => None
        case Some(rest) => Some([first] + rest)
  }

  function ReadDynamic(b: Bytes, i: nat): Option<Bytes> {
    match ReadUint(b, i)
    case None => None
    case Some(at) =>
      match WordAt(b, at)
      case None => None
      case Some(n) => if at + WORD + n <= |b| then Some(b[at + WORD..at + WORD + n]) else None
  }

  // ---------------------------------------------------------------------------------------------
  // What was written is read

  lemma {:induction false} NumberOfBigEndian(n: nat, k: nat)
    requires n < Pow256(k)
    ensures Number(BigEndian(n, k)) == n
  {
    if k > 0 {
      NumberOfBigEndian(n / 256, k - 1);
      var b := BigEndian(n, k);
      assert b[..k - 1] == BigEndian(n / 256, k - 1) && b[k - 1] == n % 256;
    }
  }

  /** A piece of the bytes, and where it begins. */
  ghost predicate Holds(b: Bytes, at: nat, piece: Bytes) {
    at + |piece| <= |b| && b[at..at + |piece|] == piece
  }

  lemma HoldsWord(b: Bytes, at: nat, n: nat)
    requires n < Pow256(WORD) && Holds(b, at, Word(n))
    ensures WordAt(b, at) == Some(n)
  {
    hide Pow256;
    WordLength(n);
    NumberOfBigEndian(n, WORD);
  }

  lemma HoldsParts(b: Bytes, at: nat, x: Bytes, y: Bytes)
    requires Holds(b, at, x + y)
    ensures Holds(b, at, x) && Holds(b, at + |x|, y)
  {
    var xy := b[at..at + |x + y|];
    assert xy[..|x|] == x && xy[|x|..] == y;
    assert b[at..at + |x|] == xy[..|x|];
    assert b[at + |x|..at + |x| + |y|] == xy[|x|..];
  }

  lemma {:induction false} HoldsWords(b: Bytes, at: nat, items: seq<nat>)
    requires Holds(b, at, Words(items)) && forall i :: 0 <= i < |items| ==> items[i] < Pow256(WORD)
    ensures WordsAt(b, at, |items|) == Some(items)
    decreases |items|
  {
    hide Pow256, Word, WordAt, Holds;
    if items != [] {
      WordLength(items[0]);
      HoldsParts(b, at, Word(items[0]), Words(items[1..]));
      HoldsWord(b, at, items[0]);
      HoldsWords(b, at + WORD, items[1..]);
      assert items == [items[0]] + items[1..];
    }
  }

  lemma {:induction false} WordsLength(items: seq<nat>)
    ensures |Words(items)| == WORD * |items|
  {
    hide Word;
    if items != [] {
      WordLength(items[0]);
      WordsLength(items[1..]);
    }
  }

  lemma HoldsList(b: Bytes, at: nat, items: seq<nat>)
    requires ValidToken(List(items)) && Holds(b, at, Tail(List(items)))
    ensures WordAt(b, at) == Some(|items|) && WordsAt(b, at + WORD, |items|) == Some(items)
  {
    hide Pow256, Word, Words, WordAt, WordsAt;
    WordLength(|items|);
    HoldsParts(b, at, Word(|items|), Words(items));
    HoldsWord(b, at, |items|);
    HoldsWords(b, at + WORD, items);
  }

  lemma HoldsDynamic(b: Bytes, at: nat, d: Bytes)
    requires ValidToken(DynamicBytes(d)) && Holds(b, at, Tail(DynamicBytes(d)))
    ensures WordAt(b, at) == Some(|d|) && Holds(b, at + WORD, d)
  {
    hide Pow256, Word, WordAt;
    WordLength(|d|);
    HoldsParts(b, at, Word(|d|), PadRight(d));
    HoldsWord(b, at, |d|);
    HoldsParts(b, at + WORD, d, PadRight(d)[|d|..]);
  }

  // ---------------------------------------------------------------------------------------------
  // Where heads and tails are

  /** Where the tail of argument `i` begins. */
  ghost function TailStart(ts: seq<Token>, i: nat): nat
    requires i <= |ts|
  {
    WORD * |ts| + |Tails(ts[..i])|
  }

  lemma {:induction false} HeadIsAt(ts: seq<Token>, offset: nat, i: nat)
    requires i < |ts| && forall j :: 0 <= j < |ts| ==> ValidToken(ts[j])
    ensures Holds(Heads(ts, offset), WORD * i, Head(ts[i], offset + |Tails(ts[..i])|))
  {
    hide Tail, Tails, Head, ValidToken, Holds;
    var head, rest := Head(ts[0], offset), Heads(ts[1..], offset + |Tail(ts[0])|);
    HeadLength(ts[0], offset);
    if i == 0 {
      assert ts[..0] == [];
      NoTails();
      InFront(head, rest);
    } else {
      HeadIsAt(ts[1..], offset + |Tail(ts[0])|, i - 1);
      FirstTail(ts, i);
      Behind(head, rest, WORD * (i - 1), Head(ts[i], offset + |Tails(ts[..i])|));
    }
  }

  lemma NoTails()
    ensures Tails([]) == []
  {
  }

  lemma FirstTail(ts: seq<Token>, i: nat)
    requires 0 < i <= |ts|
    ensures Tails(ts[..i]) == Tail(ts[0]) + Tails(ts[1..][..i - 1])
  {
    hide Tail;
    assert ts[..i][1..] == ts[1..][..i - 1];
  }

  lemma InFront(a: Bytes, b: Bytes)
    ensures Holds(a + b, 0, a)
  {
    assert (a + b)[..|a|] == a;
  }

  lemma HeadLength(t: Token, offset: nat)
    requires ValidToken(t)
    ensures |Head(t, offset)| == WORD
  {
    hide Pow256;
  }

  lemma Behind(a: Bytes, b: Bytes, at: nat, piece: Bytes)
    requires Holds(b, at, piece)
    ensures Holds(a + b, |a| + at, piece)
  {
    assert (a + b)[|a| + at..|a| + at + |piece|] == b[at..at + |piece|];
  }

  lemma {:induction false} TailIsAt(ts: seq<Token>, i: nat)
    requires i < |ts|
    ensures Holds(Tails(ts), |Tails(ts[..i])|, Tail(ts[i]))
  {
    hide Tail, Holds;
    if i == 0 {
      assert ts[..0] == [];
      InFront(Tail(ts[0]), Tails(ts[1..]));
    } else {
      TailIsAt(ts[1..], i - 1);
      FirstTail(ts, i);
      Behind(Tail(ts[0]), Tails(ts[1..]), |Tails(ts[1..][..i - 1])|, Tail(ts[i]));
    }
  }

  /** Tokens that can be encoded: each fits, and so does every offset. */
  ghost predicate Encodable(ts: seq<Token>) {
    (forall i :: 0 <= i < |ts| ==> ValidToken(ts[i])) && |EncodeTokens(ts)| < Pow256(WORD)
  }

  lemma HeadAndTail(ts: seq<Token>, i: nat)
    requires Encodable(ts) && i < |ts|
    ensures var b := EncodeTokens(ts);
      && TailStart(ts, i) < Pow256(WORD)
      && Holds(b, WORD * i, Head(ts[i], TailStart(ts, i)))
      && Holds(b, TailStart(ts, i), Tail(ts[i]))
  {
    hide Heads, Tails, Tail, Head, ValidToken, Pow256;
    var heads := Heads(ts, WORD * |ts|);
    HeadsLength(ts, WORD * |ts|);
    HeadIsAt(ts, WORD * |ts|, i);
    TailIsAt(ts, i);
    Behind(heads, Tails(ts), |Tails(ts[..i])|, Tail(ts[i]));
    var head := Head(ts[i], TailStart(ts, i));
    assert EncodeTokens(ts)[WORD * i..WORD * i + |head|] == heads[WORD * i..WORD * i + |head|];
  }

  /** Argument `i` of the bytes, read by position, is the `i`-th token. */
  ghost predicate ReadsAs(b: Bytes, i: nat, t: Token) {
    match t
    case Uint(n) => ReadUint(b, i) == Some(n)
    case FixedBytes(w) => ReadFixed(b, i) == Some(w)
    case List(items) => ReadList(b, i) == Some(items)
    case DynamicBytes(d) => ReadDynamic(b, i) == Some(d)
  }

  /** Whatever was encoded is read back at its position, whatever the lengths of what lies before it. */
  lemma ReadsBack(ts: seq<Token>, i: nat)
    requires Encodable(ts) && i < |ts|
    ensures ReadsAs(EncodeTokens(ts), i, ts[i])
  {
    hide EncodeTokens, Tail, Word, WordAt, WordsAt, Pow256;
    var b, at := EncodeTokens(ts), TailStart(ts, i);
    HeadAndTail(ts, i);
    match ts[i]
    case Uint(n) => HoldsWord(b, WORD * i, n);
    case FixedBytes(w) =>
    case List(items) =>
      HoldsWord(b, WORD * i, at);
      HoldsList(b, at, items);
    case DynamicBytes(d) =>
      HoldsWord(b, WORD * i, at);
      HoldsDynamic(b, at, d);
  }

  // ---------------------------------------------------------------------------------------------
  // There is no slack

  /** How many bytes a dynamic value takes behind the heads: a length word, then its items or its whole words of bytes. */
  function TailSize(t: Token): nat {
    match t
    case Uint(_) => 0
    case FixedBytes(_) => 0
    case List(items) => 32 + 32 * |items|
    case DynamicBytes(d) => 32 + 32 * ((|d| + 31) / 32)
  }

  function TailSizes(ts: seq<Token>): nat {
    if ts == [] then 0 else TailSizes(ts[..|ts| - 1]) + TailSize(ts[|ts| - 1])
  }

  lemma TailSizeIs(t: Token)
    ensures |Tail(t)| == TailSize(t)
  {
    hide Words, Word, PadRight;
    match t
    case Uint(_) =>
    case FixedBytes(_) =>
    case List(items) =>
      WordLength(|items|);
      WordsLength(items);
    case DynamicBytes(d) =>
      WordLength(|d|);
      PaddedSize(d);
  }

  lemma PaddedSize(d: Bytes)
    ensures |PadRight(d)| == 32 * ((|d| + 31) / 32)
  {
  }

  lemma PaddedWithZeros(d: Bytes, k: nat)
    requires |d| <= k < |PadRight(d)|
    ensures PadRight(d)[k] == 0
  {
  }

  lemma {:induction false} TailsSize(ts: seq<Token>)
    ensures |Tails(ts)| == TailSizes(ts)
    decreases |ts|
  {
    hide Tail, TailSize;
    if ts != [] {
      var front, last := ts[..|ts| - 1], ts[|ts| - 1];
      TailsSize(front);
      TailSizeIs(last);
      TailsSnoc(front, last);
      assert ts == front + [last];
    }
  }

  lemma {:induction false} TailsSnoc(front: seq<Token>, last: Token)
    ensures Tails(front + [last]) == Tails(front) + Tail(last)
    decreases |front|
  {
    hide Tail;
    if front == [] {
      assert [last][1..] == [] && front + [last] == [last];
      assert Tails([last]) == Tail(last) + Tails([]);
    } else {
      TailsSnoc(front[1..], last);
      assert (front + [last])[1..] == front[1..] + [last];
    }
  }

  /**
  The layout is the specified one to the byte: each tail begins where the one before it ends, the first right behind
  the heads, and nothing follows the last.
   */
  lemma NoSlack(ts: seq<Token>, i: nat)
    requires Encodable(ts) && i < |ts|
    ensures |EncodeTokens(ts)| == 32 * |ts| + TailSizes(ts)
    ensures ts[i].List? || ts[i].DynamicBytes? ==> ReadUint(EncodeTokens(ts), i) == Some(32 * |ts| + TailSizes(ts[..i]))
  {
    hide Heads, Tails, Tail, Word, Pow256, WordAt, TailSizes;
    HeadsLength(ts, WORD * |ts|);
    TailsSize(ts);
    TailsSize(ts[..i]);
    HeadAndTail(ts, i);
    if ts[i].List? || ts[i].DynamicBytes? {
      HoldsWord(EncodeTokens(ts), WORD * i, TailStart(ts, i));
    }
  }

  lemma HoldsPadding(b: Bytes, at: nat, d: Bytes, k: nat)
    requires Holds(b, at, Tail(DynamicBytes(d))) && |d| <= k < 32 * ((|d| + 31) / 32)
    ensures at + 32 + k < |b| && b[at + 32 + k] == 0
  {
    hide Word, PadRight;
    WordLength(|d|);
    PaddedSize(d);
    PaddedWithZeros(d, k);
    HoldsParts(b, at, Word(|d|), PadRight(d));
    HoldsByte(b, at + 32, PadRight(d), k);
  }

  lemma HoldsByte(b: Bytes, at: nat, piece: Bytes, k: nat)
    requires Holds(b, at, piece) && k < |piece|
    ensures at + k < |b| && b[at + k] == piece[k]
  {
    assert b[at..at + |piece|][k] == piece[k];
  }

  /** A byte string is followed by zeros up to the next whole word. */
  lemma PaddingIsZero(ts: seq<Token>, i: nat, k: nat)
    requires Encodable(ts) && i < |ts| && ts[i].DynamicBytes? && |ts[i].data| <= k < 32 * ((|ts[i].data| + 31) / 32)
    ensures var at := TailStart(ts, i) + 32 + k; at < |EncodeTokens(ts)| && EncodeTokens(ts)[at] == 0
  {
    hide EncodeTokens, Pow256, Encodable, Head, Tail, Holds, TailStart;
    HeadAndTail(ts, i);
    HoldsPadding(EncodeTokens(ts), TailStart(ts, i), ts[i].data, k);
  }
}
