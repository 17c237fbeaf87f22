/** The number a byte stands for, and back, bit by bit. */
module Octets {
  import opened Prelude

  /** The `k` lowest binary digits of a number, lowest first. */
  function DigitsOf(n: nat, k: nat): (d: seq<bool>)
    ensures |d| == k
    decreases k
  {
    if k == 0 then [] else [n % 2 == 1] + DigitsOf(n / 2, k - 1)
  }

  function NumberOf(d: seq<bool>): nat {
    if d == [] then 0 else (if d[0] then 1 else 0) + 2 * NumberOf(d[1..])
  }

  function ByteOfDigits(d: seq<bool>): bv8
    requires |d| == 8
  {
    (if d[0] then 1 else 0) | (if d[1] then 2 else 0) | (if d[2] then 4 else 0) | (if d[3] then 8 else 0)
      | (if d[4] then 16 else 0) | (if d[5] then 32 else 0) | (if d[6] then 64 else 0) | (if d[7] then 128 else 0)
  }

  function DigitsOfByte(b: bv8): (d: seq<bool>)
    ensures |d| == 8
  {
    [b & 1 != 0, b & 2 != 0, b & 4 != 0, b & 8 != 0, b & 16 != 0, b & 32 != 0, b & 64 != 0, b & 128 != 0]
  }

  function ByteOf(n: nat): bv8
    requires n < 256
  {
    ByteOfDigits(DigitsOf(n, 8))
  }

  function NatOf(b: bv8): (n: nat)
    ensures n < 256
  {
    NumberBound(DigitsOfByte(b));
    BytePower();
    NumberOf(DigitsOfByte(b))
  }

  lemma BytePower()
    ensures Power2(8) == 256
  {
    assert Power2(4) == 16;
  }

  lemma {:induction false} NumberBound(d: seq<bool>)
    ensures NumberOf(d) < Power2(|d|)
  {
    if d != [] {
      NumberBound(d[1..]);
    }
  }

  lemma {:induction false} DigitsThenNumber(n: nat, k: nat)
    requires n < Power2(k)
    ensures NumberOf(DigitsOf(n, k)) == n
    decreases k
  {
    if k > 0 {
      DigitsThenNumber(n / 2, k - 1);
      assert DigitsOf(n, k)[1..] == DigitsOf(n / 2, k - 1);
    }
  }

  lemma {:induction false} NumberThenDigits(d: seq<bool>)
    ensures DigitsOf(NumberOf(d), |d|) == d
  {
    if d != [] {
      NumberThenDigits(d[1..]);
      assert NumberOf(d) / 2 == NumberOf(d[1..]);
      assert d == [d[0]] + d[1..];
    }
  }

  lemma DigitsBack(b0: bool, b1: bool, b2: bool, b3: bool, b4: bool, b5: bool, b6: bool, b7: bool)
    ensures DigitsOfByte(ByteOfDigits([b0, b1, b2, b3, b4, b5, b6, b7])) == [b0, b1, b2, b3, b4, b5, b6, b7]
  {
  }

  lemma ByteBack(b: bv8)
    ensures ByteOfDigits(DigitsOfByte(b)) == b
  {
  }

  lemma SmallBytes()
    ensures ByteOf(0) == 0 && ByteOf(1) == 1
  {
  }

  lemma NatOfByteOf(n: nat)
    requires n < 256
    ensures NatOf(ByteOf(n)) == n
  {
    hide DigitsOf, NumberOf, Power2, ByteOfDigits, DigitsOfByte;
    var d := DigitsOf(n, 8);
    assert d == [d[0], d[1], d[2], d[3], d[4], d[5], d[6], d[7]];
    DigitsBack(d[0], d[1], d[2], d[3], d[4], d[5], d[6], d[7]);
    BytePower();
    DigitsThenNumber(n, 8);
  }

  lemma ByteOfNatOf(b: bv8)
    ensures ByteOf(NatOf(b)) == b
  {
    hide DigitsOf, NumberOf, ByteOfDigits, DigitsOfByte;
    NumberThenDigits(DigitsOfByte(b));
    ByteBack(b);
  }

  // ------------------------------------------------------------------------------------------
  // Numbers of several bytes, highest byte first
  // ------------------------------------------------------------------------------------------

  /** A number without its `n` lowest bytes. */
  function Shift(x: nat, n: nat): nat {
    if n == 0 then x else Shift(x, n - 1) / 256
  }

  /** The lowest `n` bytes of a number. */
  function BigEndian(x: nat, n: nat): (b: seq<bv8>)
    ensures |b| == n
    decreases n
  {
    if n == 0 then [] else BigEndian(x / 256, n - 1) + [ByteOf(x % 256)]
  }

  /** The number that bytes spell. */
  function Value(b: seq<bv8>): nat {
    if b == [] then 0 else 256 * Value(b[..|b| - 1]) + NatOf(b[|b| - 1])
  }

  lemma {:induction false} ShiftFirst(x: nat, n: nat)
    ensures Shift(x / 256, n) == Shift(x, n + 1)
  {
    if n > 0 {
      ShiftFirst(x, n - 1);
    }
  }

  /** Byte `k` of `n`, as a shift and a truncation give it. */
  lemma {:induction false} BigEndianAt(x: nat, n: nat, k: nat)
    requires k < n
    ensures BigEndian(x, n)[k] == ByteOf(Shift(x, n - 1 - k) % 256)
    decreases n
  {
    hide ByteOf;
    if k < n - 1 {
      BigEndianAt(x / 256, n - 1, k);
      ShiftFirst(x, n - 2 - k);
    }
  }

  lemma {:induction false} ValueOfBigEndian(x: nat, n: nat)
    requires Shift(x, n) == 0
    ensures Value(BigEndian(x, n)) == x
    decreases n
  {
    hide ByteOf, NatOf;
    if n > 0 {
      ShiftFirst(x, n - 1);
      ValueOfBigEndian(x / 256, n - 1);
      NatOfByteOf(x % 256);
      assert BigEndian(x, n)[..n - 1] == BigEndian(x / 256, n - 1);
    }
  }

  lemma {:induction false} BigEndianOfValue(b: seq<bv8>)
    ensures BigEndian(Value(b), |b|) == b
  {
    hide ByteOf, NatOf;
    if b != [] {
      var init, last := b[..|b| - 1], b[|b| - 1];
      BigEndianOfValue(init);
      ByteOfNatOf(last);
      assert Value(b) / 256 == Value(init) && Value(b) % 256 == NatOf(last);
      assert b == init + [last];
    }
  }

  lemma {:induction false} ValueFits(b: seq<bv8>)
    ensures Shift(Value(b), |b|) == 0
  {
    hide NatOf;
    if b != [] {
      var init := b[..|b| - 1];
      ValueFits(init);
      assert Value(b) / 256 == Value(init);
      ShiftFirst(Value(b), |b| - 1);
    }
  }

  lemma FitsIn32(x: nat)
    requires x < 0x1_0000_0000
    ensures Shift(x, 4) == 0
  {
    assert Shift(x, 1) < 0x100_0000;
    assert Shift(x, 2) < 0x1_0000;
    assert Shift(x, 3) < 0x100;
  }

  lemma FitsIn64(x: nat)
    requires x < 0x1_0000_0000_0000_0000
    ensures Shift(x, 8) == 0
  {
    assert Shift(x, 1) < 0x100_0000_0000_0000;
    assert Shift(x, 2) < 0x1_0000_0000_0000;
    assert Shift(x, 3) < 0x100_0000_0000;
    assert Shift(x, 4) < 0x1_0000_0000;
    assert Shift(x, 5) < 0x100_0000;
    assert Shift(x, 6) < 0x1_0000;
    assert Shift(x, 7) < 0x100;
  }
}
