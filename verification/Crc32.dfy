/** CRC-32 (IEEE 802.3) as `hidra_core/src/protocol.rs` computes it: bit by bit, reflected. */
module Crc32 {
  import opened Octets

  const POLYNOMIAL: bv32 := 0xEDB88320

  /** One bit of the reflected division. */
  function Shift(crc: bv32): bv32 {
    if crc & 1 != 0 then (crc >> 1) ^ POLYNOMIAL else crc >> 1
  }

  function Shifts(crc: bv32, n: nat): bv32 {
    if n == 0 then crc else Shift(Shifts(crc, n - 1))
  }

  /** The register after one more byte. */
  function Feed(crc: bv32, byte: bv8): bv32 {
    Shifts(crc ^ (byte as bv32), 8)
  }

  function FeedAll(crc: bv32, data: seq<bv8>): bv32 {
    if data == [] then crc else Feed(FeedAll(crc, data[..|data| - 1]), data[|data| - 1])
  }

  function Crc(data: seq<bv8>): bv32 {
    !FeedAll(0xFFFFFFFF, data)
  }

  /** The inner loop: eight divisions by one bit. */
  method FeedByte(before: bv32, byte: bv8) returns (crc: bv32)
    ensures crc == Feed(before, byte)
  {
    var start := before ^ (byte as bv32);
    crc := start;
    for k := 0 to 8
      invariant crc == Shifts(start, k)
    {
      if crc & 1 != 0 {
        crc := (crc >> 1) ^ POLYNOMIAL;
      } else {
        crc := crc >> 1;
      }
    }
  }

  method Compute(data: seq<bv8>) returns (r: bv32)
    ensures r == Crc(data)
  {
    hide Feed;
    var crc: bv32 := 0xFFFFFFFF;
    for i := 0 to |data|
      invariant crc == FeedAll(0xFFFFFFFF, data[..i])
    {
      assert data[..i + 1][..i] == data[..i];
      crc := FeedByte(crc, data[i]);
    }
    assert data[..|data|] == data;
    r := !crc;
  }

  // ------------------------------------------------------------------------------------------
  // The register, one bit at a time
  // ------------------------------------------------------------------------------------------

  /** Exclusive or, by name, so that it can be reasoned about without its bits. */
  function Xor(x: bv32, y: bv32): bv32 {
    x ^ y
  }

  function BitWord(bit: bool): bv32 { if bit then 1 else 0 }

  /** The register after one more bit of data. */
  function Step(crc: bv32, bit: bool): bv32 {
    Shift(Xor(crc, BitWord(bit)))
  }

  function FeedBits(crc: bv32, bits: seq<bool>): bv32
    decreases |bits|
  {
    if bits == [] then crc else FeedBits(Step(crc, bits[0]), bits[1..])
  }

  function Half(w: bv32): bv32 { w >> 1 }

  predicate LowBit(w: bv32) { w & 1 != 0 }

  function Halves(w: bv32, n: nat): bv32 {
    if n == 0 then w else Halves(Half(w), n - 1)
  }

  /** The `n` lowest bits of a word, lowest first. */
  function BitsOfWord(w: bv32, n: nat): (bits: seq<bool>)
    ensures |bits| == n
    decreases n
  {
    if n == 0 then [] else [LowBit(w)] + BitsOfWord(Half(w), n - 1)
  }

  /** Bits that are not about to be shifted out pass through unchanged. */
  lemma StepPasses(crc: bv32, w: bv32)
    ensures Shift(Xor(crc, w)) == Xor(Step(crc, LowBit(w)), Half(w))
  {
    hide Shift, Step, Xor, LowBit, Half;
    var x := Xor(crc, BitWord(LowBit(w)));
    StepIs(crc, LowBit(w));
    SplitLow(crc, w);
    HalfTopClear(w);
    ShiftPasses(x, Xor(crc, w), Half(w));
  }

  lemma StepIs(crc: bv32, bit: bool)
    ensures Step(crc, bit) == Shift(Xor(crc, BitWord(bit)))
  {
  }

  lemma SplitOdd(crc: bv32, w: bv32)
    requires w & 1 != 0
    ensures crc ^ w == (crc ^ 1) ^ ((w >> 1) << 1)
  {
  }

  lemma SplitEven(crc: bv32, w: bv32)
    requires w & 1 == 0
    ensures crc ^ w == (crc ^ 0) ^ ((w >> 1) << 1)
  {
  }

  lemma SplitLow(crc: bv32, w: bv32)
    ensures Xor(crc, w) == Xor(Xor(crc, BitWord(LowBit(w))), Half(w) << 1)
  {
    if w & 1 != 0 {
      SplitOdd(crc, w);
    } else {
      SplitEven(crc, w);
    }
  }

  lemma HalfTopClear(w: bv32)
    ensures TopClear(Half(w))
  {
  }

  lemma ShiftPasses(x: bv32, y: bv32, w: bv32)
    requires TopClear(w) && y == Xor(x, w << 1)
    ensures Shift(y) == Xor(Shift(x), w)
  {
    hide Shift;
    if x & 1 != 0 {
      OddPasses(x, w);
    } else {
      EvenPasses(x, w);
    }
  }

  lemma ShiftOfOdd(x: bv32)
    requires x & 1 != 0
    ensures Shift(x) == (x >> 1) ^ 0xEDB88320
  {
  }

  lemma ShiftOfEven(x: bv32)
    requires x & 1 == 0
    ensures Shift(x) == x >> 1
  {
  }

  lemma OddPasses(x: bv32, w: bv32)
    requires w & 0x80000000 == 0 && x & 1 != 0
    ensures Shift(x ^ (w << 1)) == Shift(x) ^ w
  {
    hide Shift;
    OddBits(x, w);
    ShiftOfOdd(x);
    ShiftOfOdd(x ^ (w << 1));
  }

  lemma EvenPasses(x: bv32, w: bv32)
    requires w & 0x80000000 == 0 && x & 1 == 0
    ensures Shift(x ^ (w << 1)) == Shift(x) ^ w
  {
    hide Shift;
    EvenBits(x, w);
    ShiftOfEven(x);
    ShiftOfEven(x ^ (w << 1));
  }

  lemma OddBits(x: bv32, w: bv32)
    requires w & 0x80000000 == 0 && x & 1 != 0
    ensures (x ^ (w << 1)) & 1 != 0 && ((x ^ (w << 1)) >> 1) ^ 0xEDB88320 == ((x >> 1) ^ 0xEDB88320) ^ w
  {
  }

  lemma EvenBits(x: bv32, w: bv32)
    requires w & 0x80000000 == 0 && x & 1 == 0
    ensures (x ^ (w << 1)) & 1 == 0 && (x ^ (w << 1)) >> 1 == (x >> 1) ^ w
  {
  }

  predicate TopClear(w: bv32) { w & 0x80000000 == 0 }

  lemma {:induction false} ShiftsFirst(x: bv32, n: nat)
    ensures Shifts(Shift(x), n) == Shifts(x, n + 1)
  {
    hide Shift;
    if n > 0 {
      ShiftsFirst(x, n - 1);
    }
  }

  /** Folding a word in and dividing `n` times is feeding its `n` lowest bits; the rest of the word passes through. */
  lemma {:induction false} FeedWord(crc: bv32, w: bv32, n: nat)
    ensures Shifts(Xor(crc, w), n) == Xor(FeedBits(crc, BitsOfWord(w, n)), Halves(w, n))
    decreases n
  {
    hide Shift, Step, Xor, Half, LowBit;
    if n > 0 {
      var bits := BitsOfWord(w, n);
      assert bits[0] == LowBit(w) && bits[1..] == BitsOfWord(Half(w), n - 1);
      StepPasses(crc, w);
      FeedWord(Step(crc, LowBit(w)), Half(w), n - 1);
      ShiftsFirst(Xor(crc, w), n - 1);
    }
  }

  lemma XorZero(x: bv32)
    ensures Xor(x, 0) == x
  {
  }

  // ------------------------------------------------------------------------------------------
  // Up to 32 bits are one word
  // ------------------------------------------------------------------------------------------

  /** A word with one more bit below. */
  function Push(bit: bool, w: bv32): bv32 { if bit then (w << 1) | 1 else w << 1 }

  /** Bits as a word, the first one lowest. */
  function WordOf(bits: seq<bool>): bv32
    decreases |bits|
  {
    if bits == [] then 0 else Push(bits[0], WordOf(bits[1..]))
  }

  /** A word with its `n` lowest bits set. */
  function Mask(n: nat): bv32 {
    if n == 0 then 0 else Push(true, Mask(n - 1))
  }

  predicate Within(w: bv32, mask: bv32) { w | mask == mask }

  lemma OddWithin(w: bv32, mask: bv32)
    requires Within(w, mask)
    ensures Within((w << 1) | 1, (mask << 1) | 1)
  {
  }

  lemma EvenWithin(w: bv32, mask: bv32)
    requires Within(w, mask)
    ensures Within(w << 1, (mask << 1) | 1)
  {
  }

  lemma PushWithin(bit: bool, w: bv32, mask: bv32)
    requires Within(w, mask)
    ensures Within(Push(bit, w), Push(true, mask))
  {
    hide Within;
    if bit {
      OddWithin(w, mask);
    } else {
      EvenWithin(w, mask);
    }
  }

  lemma {:induction false} WordWithin(bits: seq<bool>)
    ensures Within(WordOf(bits), Mask(|bits|))
    decreases |bits|
  {
    hide Within, Push;
    if bits == [] {
      NothingWithin(0);
    } else {
      WordWithin(bits[1..]);
      PushWithin(bits[0], WordOf(bits[1..]), Mask(|bits| - 1));
    }
  }

  lemma NothingWithin(mask: bv32)
    ensures Within(0, mask)
  {
  }

  lemma {:induction false} MaskGrows(m: nat, n: nat)
    requires m <= n
    ensures Within(Mask(m), Mask(n))
    decreases m
  {
    hide Within, Push;
    if m == 0 {
      NothingWithin(Mask(n));
    } else {
      MaskGrows(m - 1, n - 1);
      PushWithin(true, Mask(m - 1), Mask(n - 1));
    }
  }

  lemma WithinTwice(w: bv32, a: bv32, b: bv32)
    requires Within(w, a) && Within(a, b)
    ensures Within(w, b)
  {
  }

  lemma Mask4(n: nat, w: bv32)
    requires Mask(n) == w
    ensures Mask(n + 4) == (((((((w << 1) | 1) << 1) | 1) << 1) | 1) << 1) | 1
  {
    assert Mask(n + 1) == (w << 1) | 1;
    assert Mask(n + 2) == (((w << 1) | 1) << 1) | 1;
  }

  lemma Mask31()
    ensures Mask(31) == 0x7FFFFFFF
  {
    hide Mask;
    Mask3();
    Mask4(3, 0x7);
    Mask4(7, 0x7F);
    Mask4(11, 0x7FF);
    Mask4(15, 0x7FFF);
    Mask4(19, 0x7FFFF);
    Mask4(23, 0x7FFFFF);
    Mask4(27, 0x7FFFFFF);
  }

  lemma Mask3()
    ensures Mask(3) == 7
  {
    assert Mask(0) == 0 && Mask(1) == 1 && Mask(2) == 3;
  }

  lemma WordTopClear(bits: seq<bool>)
    requires |bits| <= 31
    ensures TopClear(WordOf(bits))
  {
    hide Mask, Within, TopClear, WordOf;
    WordWithin(bits);
    MaskGrows(|bits|, 31);
    WithinTwice(WordOf(bits), Mask(|bits|), Mask(31));
    Mask31();
    TopClearOf(WordOf(bits));
  }

  lemma TopClearOf(w: bv32)
    requires Within(w, 0x7FFFFFFF)
    ensures TopClear(w)
  {
  }

  lemma PushBack(bit: bool, w: bv32)
    requires TopClear(w)
    ensures LowBit(Push(bit, w)) == bit && Half(Push(bit, w)) == w
  {
    if bit {
      OddBack(w);
    } else {
      EvenBack(w);
    }
  }

  lemma OddBack(w: bv32)
    requires w & 0x80000000 == 0
    ensures ((w << 1) | 1) & 1 != 0 && ((w << 1) | 1) >> 1 == w
  {
  }

  lemma EvenBack(w: bv32)
    requires w & 0x80000000 == 0
    ensures (w << 1) & 1 == 0 && (w << 1) >> 1 == w
  {
  }

  /** Up to 32 bits are the bits of the word they make up. */
  lemma {:induction false} WordOfBits(bits: seq<bool>)
    requires |bits| <= 32
    ensures BitsOfWord(WordOf(bits), |bits|) == bits && Halves(WordOf(bits), |bits|) == 0
    decreases |bits|
  {
    hide Push, LowBit, Half, TopClear;
    if bits != [] {
      var rest := bits[1..];
      WordOfBits(rest);
      WordTopClear(rest);
      PushBack(bits[0], WordOf(rest));
      assert bits == [bits[0]] + rest;
    }
  }

  /** Feeding up to 32 bits is folding them in as one word and dividing that many times. */
  lemma BitsAreWord(crc: bv32, bits: seq<bool>)
    requires |bits| <= 32
    ensures FeedBits(crc, bits) == Shifts(Xor(crc, WordOf(bits)), |bits|)
  {
    hide FeedBits, Shifts, Xor, WordOf, Halves, BitsOfWord;
    WordOfBits(bits);
    FeedWord(crc, WordOf(bits), |bits|);
    XorZero(FeedBits(crc, bits));
  }

  lemma {:induction false} FeedBitsAdd(crc: bv32, a: seq<bool>, b: seq<bool>)
    ensures FeedBits(crc, a + b) == FeedBits(FeedBits(crc, a), b)
    decreases |a|
  {
    hide Step;
    if a == [] {
      assert a + b == b;
    } else {
      assert (a + b)[1..] == a[1..] + b;
      FeedBitsAdd(Step(crc, a[0]), a[1..], b);
    }
  }

  // ------------------------------------------------------------------------------------------
  // Bytes and their bits, lowest first
  // ------------------------------------------------------------------------------------------

  function BitsOf(data: seq<bv8>): (bits: seq<bool>)
    ensures |bits| == 8 * |data|
  {
    if data == [] then [] else BitsOf(data[..|data| - 1]) + DigitsOfByte(data[|data| - 1])
  }

  function LowByte(w: bv32): bv8 { (w & 0xFF) as bv8 }

  /** What is above the lowest byte. */
  function AboveByte(w: bv32): bv32 { w >> 8 }

  function Half4(w: bv32): bv32 { Half(Half(Half(Half(w)))) }

  lemma FourHalves(w: bv32)
    ensures Half4(w) == w >> 4
  {
  }

  lemma FoursMake8(w: bv32)
    ensures (w >> 4) >> 4 == w >> 8
  {
  }

  lemma EightHalves(w: bv32)
    ensures Half4(Half4(w)) == AboveByte(w)
  {
    hide Half4;
    FourHalves(w);
    FourHalves(w >> 4);
    FoursMake8(w);
  }

  lemma LowDigits(w: bv32)
    ensures (LowByte(w) & 1 != 0) == LowBit(w)
    ensures (LowByte(w) & 2 != 0) == LowBit(Half(w))
    ensures (LowByte(w) & 4 != 0) == LowBit(Half(Half(w)))
    ensures (LowByte(w) & 8 != 0) == LowBit(Half(Half(Half(w))))
  {
  }

  lemma HighDigits4(w: bv32)
    ensures (LowByte(w) & 16 != 0) == LowBit(w >> 4)
    ensures (LowByte(w) & 32 != 0) == LowBit(Half(w >> 4))
    ensures (LowByte(w) & 64 != 0) == LowBit(Half(Half(w >> 4)))
    ensures (LowByte(w) & 128 != 0) == LowBit(Half(Half(Half(w >> 4))))
  {
  }

  function FourBits(w: bv32): (b: seq<bool>)
    ensures |b| == 4
  {
    [LowBit(w), LowBit(Half(w)), LowBit(Half(Half(w))), LowBit(Half(Half(Half(w))))]
  }

  lemma FourAndFour(a: bool, b: bool, c: bool, d: bool, e: bool, f: bool, g: bool, h: bool)
    ensures [a, b, c, d] + [e, f, g, h] == [a, b, c, d, e, f, g, h]
  {
  }

  lemma DigitsLow(w: bv32)
    ensures DigitsOfByte(LowByte(w)) == FourBits(w) + FourBits(Half4(w))
  {
    hide LowBit, Half, Half4, LowByte, DigitsOfByte;
    var b := LowByte(w);
    LowDigits(w);
    HighDigits4(w);
    FourHalves(w);
    DigitsAre(b);
    FourAndFour(b & 1 != 0, b & 2 != 0, b & 4 != 0, b & 8 != 0, b & 16 != 0, b & 32 != 0, b & 64 != 0, b & 128 != 0);
  }

  lemma DigitsAre(b: bv8)
    ensures DigitsOfByte(b)
         == [b & 1 != 0, b & 2 != 0, b & 4 != 0, b & 8 != 0, b & 16 != 0, b & 32 != 0, b & 64 != 0, b & 128 != 0]
  {
  }

  lemma TwoBitsFirst(w: bv32, n: nat)
    ensures BitsOfWord(w, n + 2) == [LowBit(w), LowBit(Half(w))] + BitsOfWord(Half(Half(w)), n)
  {
    hide LowBit, Half;
    assert BitsOfWord(w, n + 2) == [LowBit(w)] + BitsOfWord(Half(w), n + 1);
    assert BitsOfWord(Half(w), n + 1) == [LowBit(Half(w))] + BitsOfWord(Half(Half(w)), n);
  }

  lemma TwoAndTwo(a: bool, b: bool, c: bool, d: bool, rest: seq<bool>)
    ensures [a, b] + ([c, d] + rest) == [a, b, c, d] + rest
  {
  }

  lemma FourBitsFirst(w: bv32, n: nat)
    ensures BitsOfWord(w, n + 4) == FourBits(w) + BitsOfWord(Half4(w), n)
  {
    hide LowBit, Half, BitsOfWord;
    var h2 := Half(Half(w));
    TwoBitsFirst(w, n + 2);
    TwoBitsFirst(h2, n);
    TwoAndTwo(LowBit(w), LowBit(Half(w)), LowBit(h2), LowBit(Half(h2)), BitsOfWord(Half4(w), n));
  }

  /** The eight lowest bits of a word are those of its lowest byte. */
  lemma LowByteFirst(w: bv32, n: nat)
    ensures BitsOfWord(w, n + 8) == DigitsOfByte(LowByte(w)) + BitsOfWord(AboveByte(w), n)
  {
    hide BitsOfWord, FourBits, Half4, AboveByte, LowByte, DigitsOfByte;
    FourBitsFirst(w, n + 4);
    FourBitsFirst(Half4(w), n);
    EightHalves(w);
    DigitsLow(w);
    assert FourBits(w) + FourBits(Half4(w)) + BitsOfWord(AboveByte(w), n)
        == FourBits(w) + (FourBits(Half4(w)) + BitsOfWord(AboveByte(w), n));
  }

  lemma {:induction false} HalvesAdd(w: bv32, m: nat, n: nat)
    ensures Halves(w, m + n) == Halves(Halves(w, m), n)
    decreases m
  {
    hide Half;
    if m > 0 {
      HalvesAdd(Half(w), m - 1, n);
    }
  }

  lemma Halves4(w: bv32)
    ensures Halves(w, 4) == Half4(w)
  {
    hide Half;
    var h2 := Half(Half(w));
    assert Halves(w, 4) == Halves(Half(w), 3) == Halves(h2, 2);
    assert Halves(h2, 2) == Halves(Half(h2), 1) == Halves(Half(Half(h2)), 0);
  }

  lemma Halves8(w: bv32)
    ensures Halves(w, 8) == AboveByte(w)
  {
    hide Halves, AboveByte, Half4;
    HalvesAdd(w, 4, 4);
    Halves4(w);
    Halves4(Half4(w));
    EightHalves(w);
  }

  lemma ByteAsWord(byte: bv8)
    ensures LowByte(byte as bv32) == byte && AboveByte(byte as bv32) == 0
  {
  }

  /** A byte at a time is eight bits at a time. */
  lemma FeedIsBits(crc: bv32, byte: bv8)
    ensures Feed(crc, byte) == FeedBits(crc, DigitsOfByte(byte))
  {
    hide DigitsOfByte, Shifts, FeedBits, BitsOfWord, Halves, LowByte, AboveByte;
    var w := byte as bv32;
    ByteAsWord(byte);
    LowByteFirst(w, 0);
    assert DigitsOfByte(byte) + BitsOfWord(0, 0) == DigitsOfByte(byte);
    Halves8(w);
    FeedWord(crc, w, 8);
    XorZero(FeedBits(crc, DigitsOfByte(byte)));
    assert crc ^ w == Xor(crc, w);
  }

  lemma {:induction false} FeedAllIsBits(crc: bv32, data: seq<bv8>)
    ensures FeedAll(crc, data) == FeedBits(crc, BitsOf(data))
  {
    hide Feed, DigitsOfByte;
    if data != [] {
      var init, last := data[..|data| - 1], data[|data| - 1];
      FeedAllIsBits(crc, init);
      FeedIsBits(FeedAll(crc, init), last);
      FeedBitsAdd(crc, BitsOf(init), DigitsOfByte(last));
    }
  }

  lemma {:induction false} BitsOfInjective(a: seq<bv8>, b: seq<bv8>)
    requires |a| == |b| && BitsOf(a) == BitsOf(b)
    ensures a == b
  {
    hide DigitsOfByte;
    if a != [] {
      var n := |a| - 1;
      assert BitsOf(a)[..8 * n] == BitsOf(a[..n]) && BitsOf(b)[..8 * n] == BitsOf(b[..n]);
      assert BitsOf(a)[8 * n..] == DigitsOfByte(a[n]) && BitsOf(b)[8 * n..] == DigitsOfByte(b[n]);
      BitsOfInjective(a[..n], b[..n]);
      ByteBack(a[n]);
      ByteBack(b[n]);
      assert a == a[..n] + [a[n]] && b == b[..n] + [b[n]];
    }
  }

  lemma {:induction false} BitsOfPrefix(data: seq<bv8>, n: nat)
    requires n <= |data|
    ensures BitsOf(data[..n]) == BitsOf(data)[..8 * n]
    decreases |data|
  {
    hide DigitsOfByte;
    if n < |data| {
      var init := data[..|data| - 1];
      BitsOfPrefix(init, n);
      assert init[..n] == data[..n];
      assert BitsOf(data)[..8 * n] == BitsOf(init)[..8 * n];
    } else {
      assert data[..n] == data;
    }
  }

  // ------------------------------------------------------------------------------------------
  // The register map is injective
  // ------------------------------------------------------------------------------------------

  lemma ShiftInjective(x: bv32, y: bv32)
    requires Shift(x) == Shift(y)
    ensures x == y
  {
  }

  lemma XorInjective(r: bv32, x: bv32, y: bv32)
    requires Xor(r, x) == Xor(r, y)
    ensures x == y
  {
  }

  lemma XorInjectiveLeft(x: bv32, y: bv32, r: bv32)
    requires Xor(x, r) == Xor(y, r)
    ensures x == y
  {
  }

  lemma {:induction false} ShiftsInjective(x: bv32, y: bv32, n: nat)
    requires Shifts(x, n) == Shifts(y, n)
    ensures x == y
  {
    hide Shift;
    if n > 0 {
      ShiftInjective(Shifts(x, n - 1), Shifts(y, n - 1));
      ShiftsInjective(x, y, n - 1);
    }
  }

  lemma StepInjective(x: bv32, y: bv32, bit: bool)
    requires Step(x, bit) == Step(y, bit)
    ensures x == y
  {
    hide Shift, Xor, BitWord;
    ShiftInjective(Xor(x, BitWord(bit)), Xor(y, BitWord(bit)));
    XorInjectiveLeft(x, y, BitWord(bit));
  }

  lemma {:induction false} FeedBitsInjective(x: bv32, y: bv32, bits: seq<bool>)
    requires FeedBits(x, bits) == FeedBits(y, bits)
    ensures x == y
    decreases |bits|
  {
    hide Step;
    if bits != [] {
      FeedBitsInjective(Step(x, bits[0]), Step(y, bits[0]), bits[1..]);
      StepInjective(x, y, bits[0]);
    }
  }

  /** From one register value, different bit strings of one length up to 32 lead to different values. */
  lemma ShortBitsInjective(crc: bv32, a: seq<bool>, b: seq<bool>)
    requires |a| == |b| <= 32 && FeedBits(crc, a) == FeedBits(crc, b)
    ensures a == b
  {
    hide FeedBits, Shifts, Xor, WordOf, BitsOfWord, Halves;
    BitsAreWord(crc, a);
    BitsAreWord(crc, b);
    ShiftsInjective(Xor(crc, WordOf(a)), Xor(crc, WordOf(b)), |a|);
    XorInjective(crc, WordOf(a), WordOf(b));
    WordOfBits(a);
    WordOfBits(b);
  }

  // ------------------------------------------------------------------------------------------
  // Check values as bytes
  // ------------------------------------------------------------------------------------------

  function Bytes(w: bv32): (b: seq<bv8>)
    ensures |b| == 4
  {
    [(w & 0xFF) as bv8, ((w >> 8) & 0xFF) as bv8, ((w >> 16) & 0xFF) as bv8, ((w >> 24) & 0xFF) as bv8]
  }

  function Word(b: seq<bv8>): bv32
    requires |b| == 4
  {
    (b[0] as bv32) | ((b[1] as bv32) << 8) | ((b[2] as bv32) << 16) | ((b[3] as bv32) << 24)
  }

  lemma WordOfBytes(w: bv32)
    ensures Word(Bytes(w)) == w
  {
  }

  lemma BytesOfWord(b: seq<bv8>)
    requires |b| == 4
    ensures Bytes(Word(b)) == b
  {
  }

  lemma {:induction false} FeedAllAdd(crc: bv32, a: seq<bv8>, b: seq<bv8>)
    ensures FeedAll(crc, a + b) == FeedAll(FeedAll(crc, a), b)
  {
    hide Feed;
    if b == [] {
      assert a + b == a;
    } else {
      assert (a + b)[..|a + b| - 1] == a + b[..|b| - 1];
      FeedAllAdd(crc, a, b[..|b| - 1]);
    }
  }

  lemma BytesAgain(w: bv32)
    ensures var w1, w2 := AboveByte(w), AboveByte(AboveByte(w));
            Bytes(w) == [LowByte(w), LowByte(w1), LowByte(w2), LowByte(AboveByte(w2))]
  {
  }

  lemma NothingAbove(w: bv32)
    ensures AboveByte(AboveByte(AboveByte(AboveByte(w)))) == 0
  {
  }

  /** The bytes of a word are its 32 bits. */
  lemma BitsOfBytes(w: bv32)
    ensures BitsOf(Bytes(w)) == BitsOfWord(w, 32)
  {
    hide DigitsOfByte, LowByte, AboveByte, BitsOfWord, BitsOf, Bytes;
    var w1 := AboveByte(w);
    var w2 := AboveByte(w1);
    var w3 := AboveByte(w2);
    BytesAgain(w);
    FourBytesOfBits(LowByte(w), LowByte(w1), LowByte(w2), LowByte(w3));
    LowByteFirst(w, 24);
    LowByteFirst(w1, 16);
    LowByteFirst(w2, 8);
    LowByteFirst(w3, 0);
    assert DigitsOfByte(LowByte(w3)) + BitsOfWord(AboveByte(w3), 0) == DigitsOfByte(LowByte(w3));
  }

  lemma Halves32(w: bv32)
    ensures Halves(w, 32) == 0
  {
    hide Halves, AboveByte;
    var w1 := AboveByte(w);
    var w2 := AboveByte(w1);
    Halves8(w);
    HalvesAdd(w, 8, 8);
    Halves8(w1);
    HalvesAdd(w, 16, 8);
    Halves8(w2);
    HalvesAdd(w, 24, 8);
    Halves8(AboveByte(w2));
    NothingAbove(w);
  }

  /** Feeding the four bytes of a word is folding it in and dividing 32 times. */
  lemma FourBytesAreOneWord(crc: bv32, w: bv32)
    ensures FeedAll(crc, Bytes(w)) == Shifts(Xor(crc, w), 32)
  {
    hide FeedBits, Shifts, Xor, Halves, BitsOfWord, BitsOf, Bytes, FeedAll;
    FeedAllIsBits(crc, Bytes(w));
    BitsOfBytes(w);
    Halves32(w);
    FeedWord(crc, w, 32);
    XorZero(FeedBits(crc, BitsOf(Bytes(w))));
  }

  lemma FourBytesOfBits(x0: bv8, x1: bv8, x2: bv8, x3: bv8)
    ensures BitsOf([x0, x1, x2, x3]) == DigitsOfByte(x0) + (DigitsOfByte(x1) + (DigitsOfByte(x2) + DigitsOfByte(x3)))
  {
    hide DigitsOfByte;
    var d0, d1, d2, d3 := DigitsOfByte(x0), DigitsOfByte(x1), DigitsOfByte(x2), DigitsOfByte(x3);
    assert [] + [x0] == [x0] && [x0] + [x1] == [x0, x1] && [x0, x1] + [x2] == [x0, x1, x2];
    assert [x0, x1, x2] + [x3] == [x0, x1, x2, x3];
    OneMoreByte([], x0);
    assert BitsOf([x0]) == [] + d0 == d0;
    OneMoreByte([x0], x1);
    assert BitsOf([x0, x1]) == d0 + d1;
    OneMoreByte([x0, x1], x2);
    assert BitsOf([x0, x1, x2]) == d0 + d1 + d2;
    OneMoreByte([x0, x1, x2], x3);
    assert BitsOf([x0, x1, x2, x3]) == d0 + d1 + d2 + d3;
    Regroup(d0, d1, d2, d3);
  }

  lemma Regroup(a: seq<bool>, b: seq<bool>, c: seq<bool>, d: seq<bool>)
    ensures a + b + c + d == a + (b + (c + d))
  {
  }

  lemma OneMoreByte(a: seq<bv8>, x: bv8)
    ensures BitsOf(a + [x]) == BitsOf(a) + DigitsOfByte(x)
  {
    hide DigitsOfByte;
    assert (a + [x])[..|a + [x]| - 1] == a;
  }

  // ------------------------------------------------------------------------------------------
  // Frames that end in their own check value
  // ------------------------------------------------------------------------------------------

  /** `m` is some data followed by its check value, lowest byte first. */
  predicate Checked(m: seq<bv8>) {
    |m| >= 4 && m[|m| - 4..] == Bytes(Crc(m[..|m| - 4]))
  }

  const INITIAL: bv32 := 0xFFFFFFFF

  /** A frame carries its check value exactly if the register ends at one fixed value. */
  lemma CheckedIffResidue(m: seq<bv8>)
    requires |m| >= 4
    ensures Checked(m) <==> FeedAll(INITIAL, m) == Shifts(INITIAL, 32)
  {
    hide Feed, Shift, Bytes, Word, Xor;
    var body, tail := m[..|m| - 4], m[|m| - 4..];
    var r, w := FeedAll(INITIAL, body), Word(tail);
    assert m == body + tail;
    FeedAllAdd(INITIAL, body, tail);
    BytesOfWord(tail);
    FourBytesAreOneWord(r, w);
    WordOfBytes(Crc(body));
    Complement(r, w);
    if FeedAll(INITIAL, m) == Shifts(INITIAL, 32) {
      ShiftsInjective(Xor(r, w), INITIAL, 32);
    }
  }

  lemma Complement(r: bv32, w: bv32)
    ensures Xor(r, w) == 0xFFFFFFFF ==> w == !r
    ensures w == !r ==> Xor(r, w) == 0xFFFFFFFF
  {
  }

  /** The two bit strings agree outside 32 consecutive positions. */
  predicate BurstApart(a: seq<bool>, b: seq<bool>, p: nat) {
    |a| == |b| && forall i :: 0 <= i < |a| && !(p <= i < p + 32) ==> a[i] == b[i]
  }

  lemma {:induction false} BurstOfBits(crc: bv32, a: seq<bool>, b: seq<bool>, p: nat)
    requires BurstApart(a, b, p) && FeedBits(crc, a) == FeedBits(crc, b)
    ensures a == b
  {
    hide FeedBits;
    var lo := if p < |a| then p else |a|;
    var hi := if p + 32 < |a| then p + 32 else |a|;
    var pre, post := a[..lo], a[hi..];
    assert a == pre + (a[lo..hi] + post);
    assert b == pre + (b[lo..hi] + post);
    var r := FeedBits(crc, pre);
    FeedBitsAdd(crc, pre, a[lo..hi] + post);
    FeedBitsAdd(crc, pre, b[lo..hi] + post);
    FeedBitsAdd(r, a[lo..hi], post);
    FeedBitsAdd(r, b[lo..hi], post);
    FeedBitsInjective(FeedBits(r, a[lo..hi]), FeedBits(r, b[lo..hi]), post);
    ShortBitsInjective(r, a[lo..hi], b[lo..hi]);
  }

  /**
   * Every burst of up to 32 bits is caught, wherever it begins: two frames of one length that both carry their
   * own check value cannot differ inside 32 consecutive bits only.
   */
  lemma BurstIsCaught(m: seq<bv8>, m': seq<bv8>, p: nat)
    requires |m| == |m'| && Checked(m) && Checked(m') && BurstApart(BitsOf(m), BitsOf(m'), p)
    ensures m == m'
  {
    hide FeedBits, Shifts, Bytes, BitsOf, FeedAll, BurstApart;
    assert |m| >= 4;
    CheckedIffResidue(m);
    CheckedIffResidue(m');
    FeedAllIsBits(INITIAL, m);
    FeedAllIsBits(INITIAL, m');
    BurstOfBits(INITIAL, BitsOf(m), BitsOf(m'), p);
    BitsOfInjective(m, m');
  }
}
