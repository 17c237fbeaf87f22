/** The 320-bit permutation of Ascon v1.2, as `callwhite_mcu/src/spi_ascon.h` computes it. */
module AsconPermutation {

  datatype State = State(x0: bv64, x1: bv64, x2: bv64, x3: bv64, x4: bv64)

  function Xor(x: bv64, y: bv64): bv64 { x ^ y }

  function AndNot(x: bv64, y: bv64): bv64 { !x & y }

  function Not(x: bv64): bv64 { !x }

  // ------------------------------------------------------------------------------------------
  // One round
  // ------------------------------------------------------------------------------------------

  function AddConstant(s: State, rc: bv64): State {
    s.(x2 := Xor(s.x2, rc))
  }

  /** The linear steps before the nonlinear one, the nonlinear step, and the linear steps after it. */
  function Before(s: State): State {
    State(Xor(s.x0, s.x4), s.x1, Xor(s.x2, s.x1), s.x3, Xor(s.x4, s.x3))
  }

  function Chi(s: State): State {
    State(Xor(s.x0, AndNot(s.x1, s.x2)), Xor(s.x1, AndNot(s.x2, s.x3)), Xor(s.x2, AndNot(s.x3, s.x4)),
          Xor(s.x3, AndNot(s.x4, s.x0)), Xor(s.x4, AndNot(s.x0, s.x1)))
  }

  function After(s: State): State {
    State(Xor(s.x0, s.x4), Xor(s.x1, s.x0), Not(s.x2), Xor(s.x3, s.x2), s.x4)
  }

  function Substitute(s: State): State {
    After(Chi(Before(s)))
  }

  /** One place to the right, round the end. */
  function Rotate1(x: bv64): bv64 { (x >> 1) | (x << 63) }

  function Rotr(x: bv64, n: nat): bv64 {
    if n == 0 then x else Rotate1(Rotr(x, n - 1))
  }

  function Sigma(x: bv64, a: nat, b: nat): bv64 {
    Xor(x, Xor(Rotr(x, a), Rotr(x, b)))
  }

  function Diffuse(s: State): State {
    State(Sigma(s.x0, 19, 28), Sigma(s.x1, 61, 39), Sigma(s.x2, 1, 6), Sigma(s.x3, 10, 17), Sigma(s.x4, 7, 41))
  }

  function Round(s: State, rc: bv64): State {
    Diffuse(Substitute(AddConstant(s, rc)))
  }

  const RC: seq<bv64> := [0xf0, 0xe1, 0xd2, 0xc3, 0xb4, 0xa5, 0x96, 0x87, 0x78, 0x69, 0x5a, 0x4b]

  function RoundConstant(i: nat): bv64
    requires i < 12
  {
    RC[i]
  }

  /** Rounds `from` up to but not including `end`. */
  function Rounds(s: State, from: nat, end: nat): State
    requires from <= end <= 12
    decreases end - from
  {
    if from == end then s else Round(Rounds(s, from, end - 1), RoundConstant(end - 1))
  }

  function Permute(s: State, rounds: nat): State
    requires rounds <= 12
  {
    Rounds(s, 12 - rounds, 12)
  }

  // ------------------------------------------------------------------------------------------
  // Rotation
  // ------------------------------------------------------------------------------------------

  lemma Rotate1Xor(x: bv64, y: bv64)
    ensures Rotate1(Xor(x, y)) == Xor(Rotate1(x), Rotate1(y))
  {
  }

  lemma Rotate1AndNot(x: bv64, y: bv64)
    ensures Rotate1(AndNot(x, y)) == AndNot(Rotate1(x), Rotate1(y))
  {
  }

  lemma NotAsXor(x: bv64)
    ensures Not(x) == Xor(x, 0xFFFF_FFFF_FFFF_FFFF)
  {
  }

  lemma Rotate1Ones()
    ensures Rotate1(0xFFFF_FFFF_FFFF_FFFF) == 0xFFFF_FFFF_FFFF_FFFF
  {
  }

  lemma Rotate1Not(x: bv64)
    ensures Rotate1(Not(x)) == Not(Rotate1(x))
  {
    hide Rotate1, Not, Xor;
    NotAsXor(x);
    NotAsXor(Rotate1(x));
    Rotate1Ones();
    Rotate1Xor(x, 0xFFFF_FFFF_FFFF_FFFF);
  }

  lemma {:induction false} RotrXor(x: bv64, y: bv64, n: nat)
    ensures Rotr(Xor(x, y), n) == Xor(Rotr(x, n), Rotr(y, n))
  {
    hide Rotate1, Xor;
    if n > 0 {
      RotrXor(x, y, n - 1);
      Rotate1Xor(Rotr(x, n - 1), Rotr(y, n - 1));
    }
  }

  lemma {:induction false} RotrAndNot(x: bv64, y: bv64, n: nat)
    ensures Rotr(AndNot(x, y), n) == AndNot(Rotr(x, n), Rotr(y, n))
  {
    hide Rotate1, AndNot;
    if n > 0 {
      RotrAndNot(x, y, n - 1);
      Rotate1AndNot(Rotr(x, n - 1), Rotr(y, n - 1));
    }
  }

  lemma {:induction false} RotrNot(x: bv64, n: nat)
    ensures Rotr(Not(x), n) == Not(Rotr(x, n))
  {
    hide Rotate1, Not;
    if n > 0 {
      RotrNot(x, n - 1);
      Rotate1Not(Rotr(x, n - 1));
    }
  }

  lemma {:induction false} RotrTwice(x: bv64, m: nat, n: nat)
    ensures Rotr(Rotr(x, m), n) == Rotr(x, m + n)
  {
    hide Rotate1;
    if n > 0 {
      RotrTwice(x, m, n - 1);
    }
  }

  // The rotations the source uses, up to sixteen places one at a time and the others in two parts.

  lemma FirstRotations(x: bv64)
    ensures Rotr(x, 1) == x.RotateRight(1) && Rotr(x, 3) == x.RotateRight(3) && Rotr(x, 6) == x.RotateRight(6)
    ensures Rotr(x, 7) == x.RotateRight(7) && Rotr(x, 9) == x.RotateRight(9) && Rotr(x, 10) == x.RotateRight(10)
    ensures Rotr(x, 12) == x.RotateRight(12) && Rotr(x, 13) == x.RotateRight(13) && Rotr(x, 16) == x.RotateRight(16)
  {
    assert Rotr(x, 1) == x.RotateRight(1);
    assert Rotr(x, 2) == x.RotateRight(2);
    assert Rotr(x, 3) == x.RotateRight(3);
    assert Rotr(x, 4) == x.RotateRight(4);
    assert Rotr(x, 5) == x.RotateRight(5);
    assert Rotr(x, 6) == x.RotateRight(6);
    assert Rotr(x, 7) == x.RotateRight(7);
    assert Rotr(x, 8) == x.RotateRight(8);
    assert Rotr(x, 9) == x.RotateRight(9);
    assert Rotr(x, 10) == x.RotateRight(10);
    assert Rotr(x, 11) == x.RotateRight(11);
    assert Rotr(x, 12) == x.RotateRight(12);
    assert Rotr(x, 13) == x.RotateRight(13);
    assert Rotr(x, 14) == x.RotateRight(14);
    assert Rotr(x, 15) == x.RotateRight(15);
    assert Rotr(x, 16) == x.RotateRight(16);
  }

  lemma Rotr16(x: bv64)
    ensures Rotr(x, 16) == x.RotateRight(16)
  {
    hide Rotr;
    FirstRotations(x);
  }

  lemma Rotr32(x: bv64)
    ensures Rotr(x, 32) == x.RotateRight(32)
  {
    hide Rotr;
    RotrTwice(x, 16, 16);
    Rotr16(x);
    Rotr16(Rotr(x, 16));
  }

  lemma Rotr48(x: bv64)
    ensures Rotr(x, 48) == x.RotateRight(48)
  {
    hide Rotr;
    RotrTwice(x, 32, 16);
    Rotr32(x);
    Rotr16(Rotr(x, 32));
  }

  /** All the way round. */
  lemma Rotr64(x: bv64)
    ensures Rotr(x, 64) == x
  {
    hide Rotr;
    RotrTwice(x, 32, 32);
    Rotr32(x);
    Rotr32(Rotr(x, 32));
  }

  lemma Rotr17(x: bv64)
    ensures Rotr(x, 17) == x.RotateRight(17)
  {
    hide Rotr;
    RotrTwice(x, 16, 1);
    Rotr16(x);
    FirstRotations(Rotr(x, 16));
  }

  lemma Rotr19(x: bv64)
    ensures Rotr(x, 19) == x.RotateRight(19)
  {
    hide Rotr;
    RotrTwice(x, 16, 3);
    Rotr16(x);
    FirstRotations(Rotr(x, 16));
  }

  lemma Rotr28(x: bv64)
    ensures Rotr(x, 28) == x.RotateRight(28)
  {
    hide Rotr;
    RotrTwice(x, 16, 12);
    Rotr16(x);
    FirstRotations(Rotr(x, 16));
  }

  lemma Rotr39(x: bv64)
    ensures Rotr(x, 39) == x.RotateRight(39)
  {
    hide Rotr;
    RotrTwice(x, 32, 7);
    Rotr32(x);
    FirstRotations(Rotr(x, 32));
  }

  lemma Rotr41(x: bv64)
    ensures Rotr(x, 41) == x.RotateRight(41)
  {
    hide Rotr;
    RotrTwice(x, 32, 9);
    Rotr32(x);
    FirstRotations(Rotr(x, 32));
  }

  lemma Rotr61(x: bv64)
    ensures Rotr(x, 61) == x.RotateRight(61)
  {
    hide Rotr;
    RotrTwice(x, 48, 13);
    Rotr48(x);
    FirstRotations(Rotr(x, 48));
  }

  // ------------------------------------------------------------------------------------------
  // Words and their bits
  // ------------------------------------------------------------------------------------------

  function Low(x: bv64): bool { x & 1 == 1 }

  /** Bit `j` of a word. */
  function Bit(x: bv64, j: nat): bool { Low(Rotr(x, j)) }

  lemma BitXor(x: bv64, y: bv64, j: nat)
    ensures Bit(Xor(x, y), j) == (Bit(x, j) != Bit(y, j))
  {
    hide Rotr;
    RotrXor(x, y, j);
  }

  lemma BitAndNot(x: bv64, y: bv64, j: nat)
    ensures Bit(AndNot(x, y), j) == (!Bit(x, j) && Bit(y, j))
  {
    hide Rotr;
    RotrAndNot(x, y, j);
  }

  lemma BitNot(x: bv64, j: nat)
    ensures Bit(Not(x), j) == !Bit(x, j)
  {
    hide Rotr;
    RotrNot(x, j);
  }

  function Half(x: bv64): bv64 { x >> 1 }

  /** The low bit, moved to the top. */
  function Top(x: bv64): bv64 { x << 63 }

  function Or(x: bv64, y: bv64): bv64 { x | y }

  function Shr(x: bv64, n: nat): bv64 {
    if n == 0 then x else Half(Shr(x, n - 1))
  }

  lemma HalfOr(x: bv64, y: bv64)
    ensures Half(Or(x, y)) == Or(Half(x), Half(y))
  {
  }

  lemma {:induction false} ShrOr(x: bv64, y: bv64, n: nat)
    ensures Shr(Or(x, y), n) == Or(Shr(x, n), Shr(y, n))
  {
    hide Half, Or;
    if n > 0 {
      ShrOr(x, y, n - 1);
      HalfOr(Shr(x, n - 1), Shr(y, n - 1));
    }
  }

  lemma {:induction false} ShrTwice(x: bv64, m: nat, n: nat)
    ensures Shr(Shr(x, m), n) == Shr(x, m + n)
  {
    hide Half;
    if n > 0 {
      ShrTwice(x, m, n - 1);
    }
  }

  lemma ShrNext(x: bv64, n: nat)
    ensures Shr(Half(x), n) == Shr(x, n + 1)
  {
    hide Half;
    assert Shr(x, 1) == Half(Shr(x, 0));
    ShrTwice(x, 1, n);
  }

  lemma TopOfLow(x: bv64, y: bv64)
    requires Low(x) == Low(y)
    ensures Top(x) == Top(y)
  {
  }

  lemma Rotate1Parts(x: bv64)
    ensures Rotate1(x) == Or(Half(x), Top(x))
  {
  }

  lemma ShrRotate1(x: bv64, n: nat)
    ensures Shr(Rotate1(x), n) == Or(Shr(x, n + 1), Shr(Top(x), n))
  {
    hide Half, Top, Or, Rotate1;
    Rotate1Parts(x);
    ShrOr(Half(x), Top(x), n);
    ShrNext(x, n);
  }

  /** If the bits below `n` agree, the top `n` bits agree after `n` places of rotation. */
  lemma {:induction false} TopBitsAgree(x: bv64, y: bv64, n: nat)
    requires n <= 64 && forall j: nat | j < n :: Bit(x, j) == Bit(y, j)
    ensures Shr(Rotr(x, n), 64 - n) == Shr(Rotr(y, n), 64 - n)
  {
    hide Shr, Low, Rotate1, Top, Or;
    if n == 0 {
      AllShifted(x);
      AllShifted(y);
    } else {
      TopBitsAgree(x, y, n - 1);
      var p, q := Rotr(x, n - 1), Rotr(y, n - 1);
      assert Bit(x, n - 1) == Bit(y, n - 1);
      TopOfLow(p, q);
      ShrRotate1(p, 64 - n);
      ShrRotate1(q, 64 - n);
    }
  }

  lemma ShrNone(x: bv64)
    ensures Shr(x, 0) == x
  {
  }

  lemma Shr4(x: bv64)
    ensures Shr(x, 4) == x >> 4
  {
    assert Shr(x, 1) == x >> 1;
    assert Shr(x, 2) == x >> 2;
    assert Shr(x, 3) == x >> 3;
  }

  lemma Shr16(x: bv64)
    ensures Shr(x, 16) == x >> 16
  {
    hide Shr;
    var a, b, c := Shr(x, 4), Shr(x, 8), Shr(x, 12);
    Shr4(x);
    Shr4(a);
    Shr4(b);
    Shr4(c);
    ShrTwice(x, 4, 4);
    ShrTwice(x, 8, 4);
    ShrTwice(x, 12, 4);
  }

  lemma AllShifted(x: bv64)
    ensures Shr(x, 64) == 0
  {
    hide Shr;
    var a, b, c := Shr(x, 16), Shr(x, 32), Shr(x, 48);
    Shr16(x);
    Shr16(a);
    Shr16(b);
    Shr16(c);
    ShrTwice(x, 16, 16);
    ShrTwice(x, 32, 16);
    ShrTwice(x, 48, 16);
  }

  /** A word is its 64 bits. */
  lemma SameBits(x: bv64, y: bv64)
    requires forall j: nat | j < 64 :: Bit(x, j) == Bit(y, j)
    ensures x == y
  {
    hide Bit, Rotr;
    TopBitsAgree(x, y, 64);
    Rotr64(x);
    Rotr64(y);
    ShrNone(x);
    ShrNone(y);
  }

  // ------------------------------------------------------------------------------------------
  // The linear layer can be undone
  // ------------------------------------------------------------------------------------------

  lemma XorAssociates(x: bv64, y: bv64, z: bv64)
    ensures Xor(Xor(x, y), z) == Xor(x, Xor(y, z))
  {
    hide Xor, Bit;
    forall j: nat | j < 64 ensures Bit(Xor(Xor(x, y), z), j) == Bit(Xor(x, Xor(y, z)), j) {
      BitXor(Xor(x, y), z, j);
      BitXor(x, y, j);
      BitXor(x, Xor(y, z), j);
      BitXor(y, z, j);
    }
    SameBits(Xor(Xor(x, y), z), Xor(x, Xor(y, z)));
  }

  lemma XorCommutes(x: bv64, y: bv64)
    ensures Xor(x, y) == Xor(y, x)
  {
  }

  lemma XorTwice(x: bv64, y: bv64)
    ensures Xor(Xor(x, y), y) == x
  {
  }

  /** (x + a + b) + (a + c + d) + (b + d + e) == x + c + e, addition without carries. */
  lemma XorSquare(x: bv64, a: bv64, b: bv64, c: bv64, d: bv64, e: bv64)
    ensures Xor(Xor(x, Xor(a, b)), Xor(Xor(a, Xor(c, d)), Xor(b, Xor(d, e)))) == Xor(x, Xor(c, e))
  {
    hide Xor;
    var inner := Xor(Xor(a, Xor(c, d)), Xor(b, Xor(d, e)));
    assert inner == Xor(Xor(a, b), Xor(c, e)) by {
      XorAssociates(a, Xor(c, d), Xor(b, Xor(d, e)));
      XorAssociates(Xor(c, d), b, Xor(d, e));
      XorCommutes(Xor(c, d), b);
      XorAssociates(b, Xor(c, d), Xor(d, e));
      XorAssociates(a, b, Xor(Xor(c, d), Xor(d, e)));
      XorAssociates(Xor(c, d), d, e);
      XorTwice(c, d);
    }
    XorAssociates(Xor(x, Xor(a, b)), Xor(a, b), Xor(c, e));
    XorTwice(x, Xor(a, b));
  }

  lemma SigmaTwice(x: bv64, a: nat, b: nat)
    ensures Sigma(Sigma(x, a, b), a, b) == Sigma(x, 2 * a, 2 * b)
  {
    hide Xor, Rotr;
    var ra, rb := Rotr(x, a), Rotr(x, b);
    RotrXor(x, Xor(ra, rb), a);
    RotrXor(ra, rb, a);
    RotrXor(x, Xor(ra, rb), b);
    RotrXor(ra, rb, b);
    RotrTwice(x, a, a);
    RotrTwice(x, b, b);
    RotrTwice(x, a, b);
    RotrTwice(x, b, a);
    XorSquare(x, ra, rb, Rotr(x, 2 * a), Rotr(x, a + b), Rotr(x, 2 * b));
  }

  lemma {:induction false} RotrWhole(x: bv64, n: nat)
    ensures Rotr(x, 64 * n) == x
  {
    hide Rotr;
    if n == 0 {
      assert Rotr(x, 0) == x by { RotrNone(x); }
    } else {
      RotrWhole(x, n - 1);
      RotrTwice(x, 64 * (n - 1), 64);
      Rotr64(x);
    }
  }

  lemma RotrNone(x: bv64)
    ensures Rotr(x, 0) == x
  {
  }

  /** Equal images have equal arguments: doubling the two distances six times gives the identity. */
  lemma SigmaInjective(x: bv64, y: bv64, a: nat, b: nat)
    requires Sigma(x, a, b) == Sigma(y, a, b)
    ensures x == y
  {
    SigmaInjectiveAt(x, y, a, b, 64);
  }

  lemma {:induction false} SigmaInjectiveAt(x: bv64, y: bv64, a: nat, b: nat, n: nat)
    requires n in [64, 32, 16, 8, 4, 2, 1]
    requires Sigma(x, 64 / n * a, 64 / n * b) == Sigma(y, 64 / n * a, 64 / n * b)
    ensures x == y
    decreases n
  {
    hide Rotr, Xor;
    var c, d := 64 / n * a, 64 / n * b;
    if n == 1 {
      RotrWhole(x, a);
      RotrWhole(x, b);
      RotrWhole(y, a);
      RotrWhole(y, b);
      XorAssociates(x, x, x);
      XorTwice(x, x);
      XorAssociates(y, y, y);
      XorTwice(y, y);
    } else {
      SigmaTwice(x, c, d);
      SigmaTwice(y, c, d);
      assert 64 / (n / 2) * a == 2 * c && 64 / (n / 2) * b == 2 * d;
      SigmaInjectiveAt(x, y, a, b, n / 2);
    }
  }

  // ------------------------------------------------------------------------------------------
  // The substitution layer is the table of the standard, column by column
  // ------------------------------------------------------------------------------------------

  /** The S-box of Ascon v1.2, section 2.6.2. */
  const SBOX: seq<nat> := [
    0x4, 0xb, 0x1f, 0x14, 0x1a, 0x15, 0x9, 0x2, 0x1b, 0x5, 0x8, 0x12, 0x1d, 0x3, 0x6, 0x1c,
    0x1e, 0x13, 0x7, 0xe, 0x0, 0xd, 0x11, 0x18, 0x10, 0xc, 0x1, 0x19, 0x16, 0xa, 0xf, 0x17]

  /** The three steps on one column. */
  datatype Bits = Bits(b0: bool, b1: bool, b2: bool, b3: bool, b4: bool)

  function BoolBefore(b: Bits): Bits {
    Bits(b.b0 != b.b4, b.b1, b.b2 != b.b1, b.b3, b.b4 != b.b3)
  }

  function BoolChi(b: Bits): Bits {
    Bits(b.b0 != (!b.b1 && b.b2), b.b1 != (!b.b2 && b.b3), b.b2 != (!b.b3 && b.b4), b.b3 != (!b.b4 && b.b0),
         b.b4 != (!b.b0 && b.b1))
  }

  function BoolAfter(b: Bits): Bits {
    Bits(b.b0 != b.b4, b.b1 != b.b0, !b.b2, b.b3 != b.b2, b.b4)
  }

  function BitsAt(s: State, j: nat): Bits {
    Bits(Bit(s.x0, j), Bit(s.x1, j), Bit(s.x2, j), Bit(s.x3, j), Bit(s.x4, j))
  }

  /** The first bit is the highest. */
  function Number(b: Bits): (n: nat)
    ensures n < 32
  {
    (if b.b0 then 16 else 0) + (if b.b1 then 8 else 0) + (if b.b2 then 4 else 0) + (if b.b3 then 2 else 0)
      + (if b.b4 then 1 else 0)
  }

  /** Bit `j` of each of the five words. */
  function Column(s: State, j: nat): (n: nat)
    ensures n < 32
  {
    Number(BitsAt(s, j))
  }

  lemma TableOnBits(b: Bits)
    ensures var r := BoolAfter(BoolChi(BoolBefore(b)));
            Number(r) == SBOX[Number(b)]
  {
  }

  lemma BitsBefore(s: State, j: nat)
    ensures BitsAt(Before(s), j) == BoolBefore(BitsAt(s, j))
  {
    hide Bit, Xor;
    BitXor(s.x0, s.x4, j);
    BitXor(s.x2, s.x1, j);
    BitXor(s.x4, s.x3, j);
  }

  lemma BitsChi(s: State, j: nat)
    ensures BitsAt(Chi(s), j) == BoolChi(BitsAt(s, j))
  {
    hide Bit, Xor, AndNot;
    BitsChi3(s, j);
    ChiBit(s.x3, s.x4, s.x0, j);
    ChiBit(s.x4, s.x0, s.x1, j);
  }

  lemma BitsChi3(s: State, j: nat)
    ensures BitsAt(Chi(s), j).b0 == BoolChi(BitsAt(s, j)).b0
    ensures BitsAt(Chi(s), j).b1 == BoolChi(BitsAt(s, j)).b1
    ensures BitsAt(Chi(s), j).b2 == BoolChi(BitsAt(s, j)).b2
  {
    hide Bit, Xor, AndNot;
    ChiBit(s.x0, s.x1, s.x2, j);
    ChiBit(s.x1, s.x2, s.x3, j);
    ChiBit(s.x2, s.x3, s.x4, j);
  }

  lemma BitsAfter(s: State, j: nat)
    ensures BitsAt(After(s), j) == BoolAfter(BitsAt(s, j))
  {
    hide Bit, Xor, Not;
    BitXor(s.x0, s.x4, j);
    BitXor(s.x1, s.x0, j);
    BitNot(s.x2, j);
    BitXor(s.x3, s.x2, j);
  }

  lemma ChiBit(x: bv64, y: bv64, z: bv64, j: nat)
    ensures Bit(Xor(x, AndNot(y, z)), j) == (Bit(x, j) != (!Bit(y, j) && Bit(z, j)))
  {
    hide Bit, Xor, AndNot;
    BitXor(x, AndNot(y, z), j);
    BitAndNot(y, z, j);
  }

  lemma SubstituteIsTable(s: State, j: nat)
    ensures Column(Substitute(s), j) == SBOX[Column(s, j)]
  {
    hide BitsAt, Number, Before, Chi, After, BoolBefore, BoolChi, BoolAfter;
    BitsBefore(s, j);
    BitsChi(Before(s), j);
    BitsAfter(Chi(Before(s)), j);
    TableOnBits(BitsAt(s, j));
  }

  // ------------------------------------------------------------------------------------------
  // The permutation is injective
  // ------------------------------------------------------------------------------------------

  lemma XorInjective(x: bv64, y: bv64, z: bv64)
    requires Xor(x, z) == Xor(y, z)
    ensures x == y
  {
    hide Xor;
    XorTwice(x, z);
    XorTwice(y, z);
  }

  /** The table read backwards. */
  const UNBOX: seq<nat> := [
    0x14, 0x1a, 0x7, 0xd, 0x0, 0x9, 0xe, 0x12, 0xa, 0x6, 0x1d, 0x1, 0x19, 0x15, 0x13, 0x1e,
    0x18, 0x16, 0xb, 0x11, 0x3, 0x5, 0x1c, 0x1f, 0x17, 0x1b, 0x4, 0x8, 0xf, 0xc, 0x10, 0x2]

  /** The table takes no value twice. */
  lemma TableInjective(n: nat)
    requires n < 32
    ensures SBOX[n] < 32 && UNBOX[SBOX[n]] == n
  {
  }

  lemma NumberInjective(b: Bits, c: Bits)
    requires Number(b) == Number(c)
    ensures b == c
  {
  }

  lemma SubstituteInjective(s: State, t: State)
    requires Substitute(s) == Substitute(t)
    ensures s == t
  {
    hide Substitute, Number, Bit;
    forall j: nat
      ensures BitsAt(s, j) == BitsAt(t, j)
    {
      SubstituteIsTable(s, j);
      SubstituteIsTable(t, j);
      TableInjective(Column(s, j));
      TableInjective(Column(t, j));
      NumberInjective(BitsAt(s, j), BitsAt(t, j));
    }
    WordsFromBits(s, t);
  }

  lemma WordsFromBits(s: State, t: State)
    requires forall j: nat :: BitsAt(s, j) == BitsAt(t, j)
    ensures s == t
  {
    hide Bit;
    forall j: nat
      ensures Bit(s.x0, j) == Bit(t.x0, j) && Bit(s.x1, j) == Bit(t.x1, j) && Bit(s.x2, j) == Bit(t.x2, j)
      ensures Bit(s.x3, j) == Bit(t.x3, j) && Bit(s.x4, j) == Bit(t.x4, j)
    {
      assert BitsAt(s, j) == BitsAt(t, j);
    }
    SameBits(s.x0, t.x0);
    SameBits(s.x1, t.x1);
    SameBits(s.x2, t.x2);
    SameBits(s.x3, t.x3);
    SameBits(s.x4, t.x4);
  }

  lemma RoundInjective(s: State, t: State, rc: bv64)
    requires Round(s, rc) == Round(t, rc)
    ensures s == t
  {
    hide Xor, Substitute, Sigma;
    var p, q := Substitute(AddConstant(s, rc)), Substitute(AddConstant(t, rc));
    SigmaInjective(p.x0, q.x0, 19, 28);
    SigmaInjective(p.x1, q.x1, 61, 39);
    SigmaInjective(p.x2, q.x2, 1, 6);
    SigmaInjective(p.x3, q.x3, 10, 17);
    SigmaInjective(p.x4, q.x4, 7, 41);
    SubstituteInjective(AddConstant(s, rc), AddConstant(t, rc));
    XorInjective(s.x2, t.x2, rc);
  }

  lemma {:induction false} RoundsInjective(s: State, t: State, from: nat, end: nat)
    requires from <= end <= 12
    requires Rounds(s, from, end) == Rounds(t, from, end)
    ensures s == t
    decreases end
  {
    hide Round, RoundConstant;
    if from < end {
      RoundInjective(Rounds(s, from, end - 1), Rounds(t, from, end - 1), RoundConstant(end - 1));
      RoundsInjective(s, t, from, end - 1);
    }
  }

  lemma PermuteInjective(s: State, t: State, rounds: nat)
    requires rounds <= 12 && Permute(s, rounds) == Permute(t, rounds)
    ensures s == t
  {
    RoundsInjective(s, t, 12 - rounds, 12);
  }

  // ------------------------------------------------------------------------------------------
  // The state and its rounds, in place
  // ------------------------------------------------------------------------------------------

  function Spread0(x: bv64): bv64 { Xor(x, Xor((x >> 19) | (x << 45), (x >> 28) | (x << 36))) }

  function Spread1(x: bv64): bv64 { Xor(x, Xor((x >> 61) | (x << 3), (x >> 39) | (x << 25))) }

  function Spread2(x: bv64): bv64 { Xor(x, Xor((x >> 1) | (x << 63), (x >> 6) | (x << 58))) }

  function Spread3(x: bv64): bv64 { Xor(x, Xor((x >> 10) | (x << 54), (x >> 17) | (x << 47))) }

  function Spread4(x: bv64): bv64 { Xor(x, Xor((x >> 7) | (x << 57), (x >> 41) | (x << 23))) }

  lemma Spread0IsSigma(x: bv64)
    ensures Spread0(x) == Sigma(x, 19, 28)
  {
    hide Xor, Rotr;
    Rotr19(x);
    Rotr28(x);
  }

  lemma Spread1IsSigma(x: bv64)
    ensures Spread1(x) == Sigma(x, 61, 39)
  {
    hide Xor, Rotr;
    Rotr61(x);
    Rotr39(x);
  }

  lemma Spread2IsSigma(x: bv64)
    ensures Spread2(x) == Sigma(x, 1, 6)
  {
    hide Xor, Rotr;
    FirstRotations(x);
  }

  lemma Spread3IsSigma(x: bv64)
    ensures Spread3(x) == Sigma(x, 10, 17)
  {
    hide Xor, Rotr;
    FirstRotations(x);
    Rotr17(x);
  }

  lemma Spread4IsSigma(x: bv64)
    ensures Spread4(x) == Sigma(x, 7, 41)
  {
    hide Xor, Rotr;
    FirstRotations(x);
    Rotr41(x);
  }

  /** The shifts of the source are rotations. */
  lemma SpreadsAreSigmas(s: State)
    ensures Spread0(s.x0) == Sigma(s.x0, 19, 28)
    ensures Spread1(s.x1) == Sigma(s.x1, 61, 39)
    ensures Spread2(s.x2) == Sigma(s.x2, 1, 6)
    ensures Spread3(s.x3) == Sigma(s.x3, 10, 17)
    ensures Spread4(s.x4) == Sigma(s.x4, 7, 41)
  {
    hide Spread0, Spread1, Spread2, Spread3, Spread4, Sigma;
    Spread0IsSigma(s.x0);
    Spread1IsSigma(s.x1);
    Spread2IsSigma(s.x2);
    Spread3IsSigma(s.x3);
    Spread4IsSigma(s.x4);
  }

  class AsconState {
    const x: array<bv64>

    ghost function View(): State
      requires x.Length == 5
      reads x
    {
      State(x[0], x[1], x[2], x[3], x[4])
    }

    constructor ()
      ensures x.Length == 5 && fresh(x)
    {
      x := new bv64[5];
    }

    method SubstituteBefore()
      requires x.Length == 5
      modifies x
      ensures View() == Before(old(View()))
    {
      hide Xor;
      x[0] := Xor(x[0], x[4]);
      x[4] := Xor(x[4], x[3]);
      x[2] := Xor(x[2], x[1]);
    }

    method SubstituteChi()
      requires x.Length == 5
      modifies x
      ensures View() == Chi(old(View()))
    {
      hide Xor, AndNot;
      var t0, t1, t2 := AndNot(x[0], x[1]), AndNot(x[1], x[2]), AndNot(x[2], x[3]);
      var t3, t4 := AndNot(x[3], x[4]), AndNot(x[4], x[0]);
      x[0] := Xor(x[0], t1);
      x[1] := Xor(x[1], t2);
      x[2] := Xor(x[2], t3);
      x[3] := Xor(x[3], t4);
      x[4] := Xor(x[4], t0);
    }

    method SubstituteAfter()
      requires x.Length == 5
      modifies x
      ensures View() == After(old(View()))
    {
      hide Xor, Not;
      x[1] := Xor(x[1], x[0]);
      x[0] := Xor(x[0], x[4]);
      x[3] := Xor(x[3], x[2]);
      x[2] := Not(x[2]);
    }

    method DiffuseInPlace()
      requires x.Length == 5
      modifies x
      ensures View() == Diffuse(old(View()))
    {
      hide Sigma, Spread0, Spread1, Spread2, Spread3, Spread4;
      SpreadsAreSigmas(View());
      x[0] := Spread0(x[0]);
      x[1] := Spread1(x[1]);
      x[2] := Spread2(x[2]);
      x[3] := Spread3(x[3]);
      x[4] := Spread4(x[4]);
    }

    method RoundInPlace(rc: bv64)
      requires x.Length == 5
      modifies x
      ensures View() == Round(old(View()), rc)
    {
      hide Xor, Before, Chi, After, Diffuse;
      ghost var s := View();
      x[2] := Xor(x[2], rc);
      assert View() == AddConstant(s, rc);
      SubstituteBefore();
      SubstituteChi();
      SubstituteAfter();
      DiffuseInPlace();
    }

    method PermuteInPlace(rounds: nat)
      requires x.Length == 5 && rounds <= 12
      modifies x
      ensures View() == Permute(old(View()), rounds)
    {
      hide Round, RoundConstant;
      for i := 12 - rounds to 12
        invariant View() == Rounds(old(View()), 12 - rounds, i)
      {
        RoundInPlace(RoundConstant(i));
      }
    }
  }
}
