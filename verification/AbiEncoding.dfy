/** The call data of NonfungiblePositionManager.mint: a selector and eleven static words, filled
    in place at a moving offset (internal/uniswapv3/abi.go).

    Words follow "Formal Specification of the Encoding" in the Solidity Contract ABI
    Specification: big-endian, left-padded, negative integers in two's complement. */
module AbiEncoding {

  type Byte = x: int | 0 <= x < 256

  const SELECTOR: nat := 4
  const WORD: nat := 32
  const FIELDS: nat := 11

  type Address = s: seq<Byte> | |s| == 20 witness seq(20, _ => 0)

  type Selector = s: seq<Byte> | |s| == SELECTOR witness [0, 0, 0, 0]

  datatype MintParams = MintParams(
    token0: Address, token1: Address, fee: int, tickLower: int, tickUpper: int,
    amount0Desired: int, amount1Desired: int, amount0Min: int, amount1Min: int,
    recipient: Address, deadline: int)

  function Abs(x: int): (r: nat)
    ensures r == x || r == -x
  {
    if x < 0 then -x else x
  }

  /** What Go's types and FillBytes demand: a 32-bit fee and ticks, and big integers whose
      magnitude fits in a word, for FillBytes panics on larger ones. */
  ghost predicate Encodable(p: MintParams) {
    && 0 <= p.fee < 0x1_0000_0000
    && -0x8000_0000 <= p.tickLower < 0x8000_0000 && -0x8000_0000 <= p.tickUpper < 0x8000_0000
    && Abs(p.amount0Desired) < Pow256(WORD) && Abs(p.amount1Desired) < Pow256(WORD)
    && Abs(p.amount0Min) < Pow256(WORD) && Abs(p.amount1Min) < Pow256(WORD)
    && Abs(p.deadline) < Pow256(WORD)
  }

  predicate Unsigned(p: MintParams) {
    && p.amount0Desired >= 0 && p.amount1Desired >= 0
    && p.amount0Min >= 0 && p.amount1Min >= 0 && p.deadline >= 0
  }

  // ---------------------------------------------------------------- words

  function Pow256(n: nat): (p: nat)
    ensures p > 0
  {
    if n == 0 then 1 else 256 * Pow256(n - 1)
  }

  lemma {:induction false} PowLarge(n: nat)
    requires n >= 5
    ensures Pow256(n) >= 0x100_0000_0000
  {
    if n == 5 {
      assert Pow256(1) == 256 && Pow256(2) == 0x1_0000 && Pow256(3) == 0x100_0000 && Pow256(4) == 0x1_0000_0000;
    } else {
      PowLarge(n - 1);
    }
  }

  /** The n low bytes of x, most significant first. */
  function BytesOf(x: nat, n: nat): (s: seq<Byte>)
    ensures |s| == n
    decreases n, x
  {
    if n == 0 then [] else BytesOf(x / 256, n - 1) + [x % 256]
  }

  function ValueOf(s: seq<Byte>): nat {
    if s == [] then 0 else ValueOf(s[..|s| - 1]) * 256 + s[|s| - 1]
  }

  lemma {:induction false} ValueOfBytes(x: nat, n: nat)
    requires x < Pow256(n)
    ensures ValueOf(BytesOf(x, n)) == x
  {
    if n > 0 {
      ValueOfBytes(x / 256, n - 1);
      var s := BytesOf(x, n);
      assert s[..n - 1] == BytesOf(x / 256, n - 1);
    }
  }

  function UintWord(x: nat): seq<Byte> {
    BytesOf(x, WORD)
  }

  /** A signed integer, two's complement over the whole word. */
  function IntWord(x: int): seq<Byte>
    requires -0x8000_0000 <= x < 0x8000_0000
  {
    PowLarge(WORD);
    UintWord(if x < 0 then x + Pow256(WORD) else x)
  }

  function AddressWord(a: Address): seq<Byte> {
    seq(12, _ => 0) + a
  }

  /** The signed integer a word holds. */
  function IntOf(w: seq<Byte>): int {
    if 2 * ValueOf(w) >= Pow256(WORD) then ValueOf(w) - Pow256(WORD) else ValueOf(w)
  }

  lemma UintWordValue(x: nat)
    requires x < Pow256(WORD)
    ensures |UintWord(x)| == WORD && ValueOf(UintWord(x)) == x
  {
    ValueOfBytes(x, WORD);
  }

  lemma IntWordValue(x: int)
    requires -0x8000_0000 <= x < 0x8000_0000
    ensures |IntWord(x)| == WORD && IntOf(IntWord(x)) == x
  {
    PowLarge(WORD);
    UintWordValue(if x < 0 then x + Pow256(WORD) else x);
  }

  // ---------------------------------------------------------------- the layout

  /** The word of field k, in the order of the struct. */
  ghost function WordAt(p: MintParams, k: nat): (w: seq<Byte>)
    requires Encodable(p) && k < FIELDS
    ensures |w| == WORD
  {
    if k == 0 then AddressWord(p.token0)
    else if k == 1 then AddressWord(p.token1)
    else if k == 2 then UintWord(p.fee)
    else if k == 3 then IntWord(p.tickLower)
    else if k == 4 then IntWord(p.tickUpper)
    else if k == 5 then UintWord(Abs(p.amount0Desired))
    else if k == 6 then UintWord(Abs(p.amount1Desired))
    else if k == 7 then UintWord(Abs(p.amount0Min))
    else if k == 8 then UintWord(Abs(p.amount1Min))
    else if k == 9 then AddressWord(p.recipient)
    else UintWord(Abs(p.deadline))
  }

  ghost function Words(p: MintParams): (ws: seq<seq<Byte>>)
    requires Encodable(p)
    ensures |ws| == FIELDS && AllWords(ws)
  {
    seq(FIELDS, k requires 0 <= k < FIELDS => WordAt(p, k))
  }

  ghost predicate AllWords(ws: seq<seq<Byte>>) {
    forall w :: w in ws ==> |w| == WORD
  }

  function Flatten(ws: seq<seq<Byte>>): seq<Byte> {
    if ws == [] then [] else Flatten(ws[..|ws| - 1]) + ws[|ws| - 1]
  }

  lemma {:induction false} FlattenSlot(ws: seq<seq<Byte>>, k: nat)
    requires AllWords(ws)
    ensures |Flatten(ws)| == WORD * |ws|
    ensures k < |ws| ==> Flatten(ws)[WORD * k..WORD * k + WORD] == ws[k]
  {
    if ws != [] {
      FlattenSlot(ws[..|ws| - 1], k);
    }
  }

  lemma FlattenNext(ws: seq<seq<Byte>>, k: nat)
    requires k < |ws|
    ensures Flatten(ws[..k + 1]) == Flatten(ws[..k]) + ws[k]
  {
    assert ws[..k + 1][..k] == ws[..k];
  }

  // ---------------------------------------------------------------- encoding in place

  lemma WholeWord(x: nat)
    ensures BytesOf(x, WORD) + [] == UintWord(x)
  {
    hide BytesOf;
  }

  lemma ByteMoves(rest: nat, i: nat, tail: seq<Byte>)
    ensures BytesOf(rest, i + 1) + tail == BytesOf(rest / 256, i) + ([rest % 256] + tail)
  {
  }

  lemma NoByteLeft(rest: nat, word: seq<Byte>)
    ensures BytesOf(rest, 0) + word == word
  {
  }

  /** Fills one word of the buffer, big-endian, from its low end, as FillBytes does. */
  method FillBytes(data: array<Byte>, offset: nat, x: nat)
    requires offset + WORD <= data.Length && x < Pow256(WORD)
    modifies data
    ensures data[..offset + WORD] == old(data[..offset]) + UintWord(x)
    ensures data[offset + WORD..] == old(data[offset + WORD..])
  {
    hide BytesOf, Pow256, UintWord;
    var rest, i := x, WORD;
    WholeWord(x);
    while i > 0
      invariant 0 <= i <= WORD
      invariant data[..offset] == old(data[..offset]) && data[offset + WORD..] == old(data[offset + WORD..])
      invariant BytesOf(rest, i) + data[offset + i..offset + WORD] == UintWord(x)
    {
      i := i - 1;
      ghost var tail := data[offset + i + 1..offset + WORD];
      data[offset + i] := rest % 256;
      assert data[offset + i..offset + WORD] == [rest % 256] + tail;
      ByteMoves(rest, i, tail);
      rest := rest / 256;
    }
    NoByteLeft(rest, data[offset..offset + WORD]);
  }

  /** Copies an address into the low twenty bytes of a word that is still zero. */
  method CopyAddress(data: array<Byte>, offset: nat, a: Address)
    requires offset + WORD <= data.Length
    requires forall i :: offset <= i < offset + WORD ==> data[i] == 0
    modifies data
    ensures data[..offset + WORD] == old(data[..offset]) + AddressWord(a)
    ensures data[offset + WORD..] == old(data[offset + WORD..])
  {
    forall i | 0 <= i < 20 {
      data[offset + 12 + i] := a[i];
    }
    assert data[offset..offset + WORD] == AddressWord(a);
  }

  /** The first k words are written behind the selector, and the rest is still zero. */
  ghost predicate Written(buffer: seq<Byte>, sel: Selector, ws: seq<seq<Byte>>, k: nat) {
    && k <= |ws| && SELECTOR + WORD * k <= |buffer|
    && buffer[..SELECTOR + WORD * k] == sel + Flatten(ws[..k])
    && forall i :: SELECTOR + WORD * k <= i < |buffer| ==> buffer[i] == 0
  }

  /** Writing word k at its offset keeps the layout. */
  lemma WrittenNext(before: seq<Byte>, after: seq<Byte>, sel: Selector, ws: seq<seq<Byte>>, k: nat)
    requires k < |ws| && Written(before, sel, ws, k)
    requires |after| == |before| && SELECTOR + WORD * k + WORD <= |after|
    requires after[..SELECTOR + WORD * k + WORD] == before[..SELECTOR + WORD * k] + ws[k]
    requires after[SELECTOR + WORD * k + WORD..] == before[SELECTOR + WORD * k + WORD..]
    ensures Written(after, sel, ws, k + 1)
  {
    FlattenNext(ws, k);
    assert sel + Flatten(ws[..k + 1]) == (sel + Flatten(ws[..k])) + ws[k];
    var n := SELECTOR + WORD * (k + 1);
    forall i | n <= i < |after| ensures after[i] == 0 {
      assert after[i] == after[n..][i - n] == before[n..][i - n];
    }
  }

  method PutUint(data: array<Byte>, offset: nat, x: nat, ghost sel: Selector, ghost p: MintParams, ghost k: nat)
    returns (next: nat)
    requires Encodable(p) && k < FIELDS && data.Length == SELECTOR + FIELDS * WORD
    requires offset == SELECTOR + WORD * k
    requires x < Pow256(WORD) && WordAt(p, k) == UintWord(x) && Written(data[..], sel, Words(p), k)
    modifies data
    ensures Written(data[..], sel, Words(p), k + 1) && next == offset + WORD
  {
    ghost var before := data[..];
    FillBytes(data, offset, x);
    WrittenNext(before, data[..], sel, Words(p), k);
    next := offset + WORD;
  }

  method PutAddress(data: array<Byte>, offset: nat, a: Address,
                    ghost sel: Selector, ghost p: MintParams, ghost k: nat)
    returns (next: nat)
    requires Encodable(p) && k < FIELDS && data.Length == SELECTOR + FIELDS * WORD
    requires offset == SELECTOR + WORD * k
    requires WordAt(p, k) == AddressWord(a) && Written(data[..], sel, Words(p), k)
    modifies data
    ensures Written(data[..], sel, Words(p), k + 1) && next == offset + WORD
  {
    ghost var before := data[..];
    assert forall i :: offset <= i < offset + WORD ==> data[..][i] == 0;
    CopyAddress(data, offset, a);
    WrittenNext(before, data[..], sel, Words(p), k);
    next := offset + WORD;
  }

  /** A tick, moved into two's complement by hand when it is negative. */
  method PutTick(data: array<Byte>, offset: nat, tick: int,
                 ghost sel: Selector, ghost p: MintParams, ghost k: nat)
    returns (next: nat)
    requires Encodable(p) && k < FIELDS && data.Length == SELECTOR + FIELDS * WORD
    requires offset == SELECTOR + WORD * k
    requires -0x8000_0000 <= tick < 0x8000_0000
    requires WordAt(p, k) == IntWord(tick) && Written(data[..], sel, Words(p), k)
    modifies data
    ensures Written(data[..], sel, Words(p), k + 1) && next == offset + WORD
  {
    hide Written, Flatten, BytesOf, Pow256;
    PowLarge(WORD);
    var big := tick;
    if tick < 0 {
      big := big + Pow256(WORD);
    }
    next := PutUint(data, offset, big, sel, p, k);
  }

  /** The first five fields: tokens, fee and ticks. */
  method PutPool(data: array<Byte>, p: MintParams, ghost sel: Selector) returns (offset: nat)
    requires Encodable(p) && data.Length == SELECTOR + FIELDS * WORD
    requires Written(data[..], sel, Words(p), 0)
    modifies data
    ensures Written(data[..], sel, Words(p), 5) && offset == SELECTOR + 5 * WORD
  {
    hide Written, Flatten, BytesOf, Pow256, IntWord, UintWord, AddressWord;
    PowLarge(WORD);
    offset := PutAddress(data, SELECTOR, p.token0, sel, p, 0);
    offset := PutAddress(data, offset, p.token1, sel, p, 1);
    offset := PutUint(data, offset, p.fee, sel, p, 2);
    offset := PutTick(data, offset, p.tickLower, sel, p, 3);
    offset := PutTick(data, offset, p.tickUpper, sel, p, 4);
  }

  /** The four amounts. */
  method PutAmounts(data: array<Byte>, offset: nat, p: MintParams, ghost sel: Selector) returns (next: nat)
    requires Encodable(p) && data.Length == SELECTOR + FIELDS * WORD
    requires offset == SELECTOR + 5 * WORD
    requires Written(data[..], sel, Words(p), 5)
    modifies data
    ensures Written(data[..], sel, Words(p), 9) && next == SELECTOR + 9 * WORD
  {
    hide Written, Flatten, BytesOf, Pow256;
    next := PutUint(data, offset, Abs(p.amount0Desired), sel, p, 5);
    next := PutUint(data, next, Abs(p.amount1Desired), sel, p, 6);
    next := PutUint(data, next, Abs(p.amount0Min), sel, p, 7);
    next := PutUint(data, next, Abs(p.amount1Min), sel, p, 8);
  }

  /** A zeroed buffer that starts with the selector. */
  method NewCall(sel: Selector, ghost ws: seq<seq<Byte>>) returns (data: array<Byte>)
    ensures fresh(data) && data.Length == SELECTOR + FIELDS * WORD
    ensures Written(data[..], sel, ws, 0)
  {
    data := new Byte[SELECTOR + FIELDS * WORD](_ => 0);
    forall i | 0 <= i < SELECTOR {
      data[i] := sel[i];
    }
    assert data[..SELECTOR] == sel + Flatten(ws[..0]);
  }

  lemma WrittenAll(buffer: seq<Byte>, sel: Selector, ws: seq<seq<Byte>>)
    requires |buffer| == SELECTOR + WORD * |ws| && Written(buffer, sel, ws, |ws|)
    ensures buffer == sel + Flatten(ws)
  {
    assert ws[..|ws|] == ws && buffer[..SELECTOR + WORD * |ws|] == buffer;
  }

  method EncodeMintPosition(sel: Selector, p: MintParams) returns (data: array<Byte>)
    requires Encodable(p)
    ensures fresh(data)
    ensures data[..] == sel + Flatten(Words(p))
  {
    hide Written, Flatten, BytesOf, Pow256;
    data := NewCall(sel, Words(p));
    var offset := PutPool(data, p, sel);
    offset := PutAmounts(data, offset, p, sel);
    offset := PutAddress(data, offset, p.recipient, sel, p, 9);
    offset := PutUint(data, offset, Abs(p.deadline), sel, p, 10);
    WrittenAll(data[..], sel, Words(p));
  }

  // ---------------------------------------------------------------- decoding

  /** Word k of the arguments, as a contract reads it. */
  function Slot(data: seq<Byte>, k: nat): (w: seq<Byte>)
    requires k < FIELDS && |data| == SELECTOR + FIELDS * WORD
    ensures |w| == WORD
  {
    data[SELECTOR + WORD * k..SELECTOR + WORD * k + WORD]
  }

  function AddressOf(w: seq<Byte>): Address
    requires |w| == WORD
  {
    w[12..]
  }

  function Decode(data: seq<Byte>): MintParams
    requires |data| == SELECTOR + FIELDS * WORD
  {
    MintParams(
      AddressOf(Slot(data, 0)), AddressOf(Slot(data, 1)), ValueOf(Slot(data, 2)),
      IntOf(Slot(data, 3)), IntOf(Slot(data, 4)),
      ValueOf(Slot(data, 5)), ValueOf(Slot(data, 6)), ValueOf(Slot(data, 7)), ValueOf(Slot(data, 8)),
      AddressOf(Slot(data, 9)), ValueOf(Slot(data, 10)))
  }

  lemma EncodedSlot(sel: Selector, ws: seq<seq<Byte>>, k: nat)
    requires AllWords(ws) && |ws| == FIELDS && k < FIELDS
    ensures |sel + Flatten(ws)| == SELECTOR + FIELDS * WORD
    ensures Slot(sel + Flatten(ws), k) == ws[k]
  {
    FlattenSlot(ws, k);
    var at := WORD * k;
    assert (sel + Flatten(ws))[SELECTOR + at..SELECTOR + at + WORD] == Flatten(ws)[at..at + WORD];
  }

  lemma SmallWordValues(p: MintParams)
    requires Encodable(p)
    ensures AddressOf(WordAt(p, 0)) == p.token0 && AddressOf(WordAt(p, 1)) == p.token1
    ensures ValueOf(WordAt(p, 2)) == p.fee
    ensures IntOf(WordAt(p, 3)) == p.tickLower && IntOf(WordAt(p, 4)) == p.tickUpper
    ensures AddressOf(WordAt(p, 9)) == p.recipient
  {
    PowLarge(WORD);
    hide BytesOf, ValueOf, IntOf, IntWord, Pow256;
    UintWordValue(p.fee);
    IntWordValue(p.tickLower);
    IntWordValue(p.tickUpper);
  }

  lemma AmountWordValues(p: MintParams)
    requires Encodable(p)
    ensures ValueOf(WordAt(p, 5)) == Abs(p.amount0Desired) && ValueOf(WordAt(p, 6)) == Abs(p.amount1Desired)
    ensures ValueOf(WordAt(p, 7)) == Abs(p.amount0Min) && ValueOf(WordAt(p, 8)) == Abs(p.amount1Min)
    ensures ValueOf(WordAt(p, 10)) == Abs(p.deadline)
  {
    hide BytesOf, ValueOf, Pow256;
    UintWordValue(Abs(p.amount0Desired));
    UintWordValue(Abs(p.amount1Desired));
    UintWordValue(Abs(p.amount0Min));
    UintWordValue(Abs(p.amount1Min));
    UintWordValue(Abs(p.deadline));
  }

  lemma {:induction false} LeadingZeros(n: nat, s: seq<Byte>)
    ensures ValueOf(seq(n, _ => 0) + s) == ValueOf(s)
    decreases |s|, n
  {
    var zeros: seq<Byte> := seq(n, _ => 0);
    if s != [] {
      LeadingZeros(n, s[..|s| - 1]);
      assert (zeros + s)[..|zeros + s| - 1] == zeros + s[..|s| - 1];
    } else if n > 0 {
      LeadingZeros(n - 1, []);
      assert (zeros + s)[..n - 1] == seq(n - 1, _ => 0) + [];
    }
  }

  /** An address is encoded as the number it is: nothing stands in front of its twenty bytes. */
  lemma AddressesAreNumbers(sel: Selector, p: MintParams)
    requires Encodable(p)
    ensures var data := sel + Flatten(Words(p));
            && |data| == SELECTOR + FIELDS * WORD
            && ValueOf(Slot(data, 0)) == ValueOf(p.token0)
            && ValueOf(Slot(data, 1)) == ValueOf(p.token1)
            && ValueOf(Slot(data, 9)) == ValueOf(p.recipient)
  {
    EncodedSlot(sel, Words(p), 0);
    EncodedSlot(sel, Words(p), 1);
    EncodedSlot(sel, Words(p), 9);
    hide ValueOf, Flatten;
    LeadingZeros(12, p.token0);
    LeadingZeros(12, p.token1);
    LeadingZeros(12, p.recipient);
  }

  /** Decoding the encoding gives back every field, with the sign of a big integer lost. */
  lemma DecodeEncoded(sel: Selector, p: MintParams)
    requires Encodable(p)
    ensures |sel + Flatten(Words(p))| == SELECTOR + FIELDS * WORD
    ensures Decode(sel + Flatten(Words(p))) ==
      p.(amount0Desired := Abs(p.amount0Desired), amount1Desired := Abs(p.amount1Desired),
         amount0Min := Abs(p.amount0Min), amount1Min := Abs(p.amount1Min), deadline := Abs(p.deadline))
  {
    var ws := Words(p);
    EncodedSlot(sel, ws, 0);
    forall k | 0 <= k < FIELDS ensures Slot(sel + Flatten(ws), k) == WordAt(p, k) {
      EncodedSlot(sel, ws, k);
    }
    SmallWordValues(p);
    AmountWordValues(p);
  }

  /** The encoding is faithful exactly on unsigned amounts: a negative one is encoded as its magnitude. */
  lemma RoundTripIff(sel: Selector, p: MintParams)
    requires Encodable(p)
    ensures |sel + Flatten(Words(p))| == SELECTOR + FIELDS * WORD
    ensures Decode(sel + Flatten(Words(p))) == p <==> Unsigned(p)
  {
    DecodeEncoded(sel, p);
  }

  /** Two calls with the same bytes are the same call. */
  lemma EncodingInjective(sel: Selector, p: MintParams, q: MintParams)
    requires Encodable(p) && Encodable(q) && Unsigned(p) && Unsigned(q)
    ensures sel + Flatten(Words(p)) == sel + Flatten(Words(q)) <==> p == q
  {
    RoundTripIff(sel, p);
    RoundTripIff(sel, q);
  }
}
