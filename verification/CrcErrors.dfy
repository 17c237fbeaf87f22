/**
 * Which scattered bit errors the CRC-32 of `hidra_core/src/protocol.rs` catches: the register as a linear map, the
 * powers of its step, and the order of the step.
 */
module CrcErrors {
  import opened Prelude
  import Octets
  import opened Crc32

  // ------------------------------------------------------------------------------------------
  // The step is linear
  // ------------------------------------------------------------------------------------------

  lemma BothOdd(x: bv32, y: bv32)
    requires x & 1 != 0 && y & 1 != 0
    ensures (x ^ y) & 1 == 0 && (x ^ y) >> 1 == ((x >> 1) ^ 0xEDB88320) ^ ((y >> 1) ^ 0xEDB88320)
  {
  }

  lemma OneOdd(x: bv32, y: bv32)
    requires x & 1 != 0 && y & 1 == 0
    ensures (x ^ y) & 1 != 0 && ((x ^ y) >> 1) ^ 0xEDB88320 == ((x >> 1) ^ 0xEDB88320) ^ (y >> 1)
  {
  }

  lemma NoneOdd(x: bv32, y: bv32)
    requires x & 1 == 0 && y & 1 == 0
    ensures (x ^ y) & 1 == 0 && (x ^ y) >> 1 == (x >> 1) ^ (y >> 1)
  {
  }

  lemma BothOddShift(x: bv32, y: bv32)
    requires x & 1 != 0 && y & 1 != 0
    ensures Shift(x ^ y) == Shift(x) ^ Shift(y)
  {
    hide Shift;
    BothOdd(x, y);
    ShiftOfOdd(x);
    ShiftOfOdd(y);
    ShiftOfEven(x ^ y);
  }

  lemma OneOddShift(x: bv32, y: bv32)
    requires x & 1 != 0 && y & 1 == 0
    ensures Shift(x ^ y) == Shift(x) ^ Shift(y)
  {
    hide Shift;
    OneOdd(x, y);
    ShiftOfOdd(x);
    ShiftOfEven(y);
    ShiftOfOdd(x ^ y);
  }

  lemma NoneOddShift(x: bv32, y: bv32)
    requires x & 1 == 0 && y & 1 == 0
    ensures Shift(x ^ y) == Shift(x) ^ Shift(y)
  {
    hide Shift;
    NoneOdd(x, y);
    ShiftOfEven(x);
    ShiftOfEven(y);
    ShiftOfEven(x ^ y);
  }

  lemma XorCommutes(x: bv32, y: bv32)
    ensures Xor(x, y) == Xor(y, x)
  {
  }

  lemma ShiftLinear(x: bv32, y: bv32)
    ensures Shift(Xor(x, y)) == Xor(Shift(x), Shift(y))
  {
    hide Shift;
    if x & 1 != 0 && y & 1 != 0 {
      BothOddShift(x, y);
    } else if x & 1 != 0 {
      OneOddShift(x, y);
    } else if y & 1 != 0 {
      hide Xor;
      XorCommutes(x, y);
      OddFirst(y, x);
      XorCommutes(Shift(x), Shift(y));
    } else {
      NoneOddShift(x, y);
    }
  }

  lemma OddFirst(x: bv32, y: bv32)
    requires x & 1 != 0 && y & 1 == 0
    ensures Shift(Xor(x, y)) == Xor(Shift(x), Shift(y))
  {
    hide Shift;
    OneOddShift(x, y);
  }

  lemma {:induction false} ShiftsLinear(x: bv32, y: bv32, n: nat)
    ensures Shifts(Xor(x, y), n) == Xor(Shifts(x, n), Shifts(y, n))
  {
    hide Shift, Xor;
    if n > 0 {
      ShiftsLinear(x, y, n - 1);
      ShiftLinear(Shifts(x, n - 1), Shifts(y, n - 1));
    }
  }

  lemma {:induction false} ShiftsAdd(x: bv32, m: nat, n: nat)
    ensures Shifts(Shifts(x, m), n) == Shifts(x, m + n)
  {
    hide Shift;
    if n > 0 {
      ShiftsAdd(x, m, n - 1);
    }
  }

  lemma ShiftZero()
    ensures Shift(0) == 0
  {
  }

  // ------------------------------------------------------------------------------------------
  // Powers of the step
  // ------------------------------------------------------------------------------------------

  /** The polynomial 1: the highest bit of a word is the lowest coefficient. */
  const UNIT: bv32 := 0x80000000

  function Power(n: nat): bv32 { Shifts(UNIT, n) }

  function Chosen(a: bv32, w: bv32): bv32 { if a & 0x80000000 != 0 then w else 0 }

  /** One coefficient of `a` on top of the product `r` of the later ones. */
  function Turn(a: bv32, w: bv32, r: bv32): bv32 { Xor(Shift(r), Chosen(a, w)) }

  /** The product of the `4 * n` lowest coefficients of `a` with `w`, modulo the polynomial. */
  function Product(a: bv32, w: bv32, n: nat): bv32
    decreases n
  {
    if n == 0 then 0
    else Turn(a, w, Turn(a << 1, w, Turn(a << 2, w, Turn(a << 3, w, Product(a << 4, w, n - 1)))))
  }

  function Double(a: bv32): bv32 { a << 1 }

  /** The same product, one coefficient at a time. */
  function ByBits(a: bv32, w: bv32, n: nat): bv32
    decreases n
  {
    if n == 0 then 0 else Turn(a, w, ByBits(Double(a), w, n - 1))
  }

  lemma DoublesAre(a: bv32)
    ensures Double(a) == a << 1 && Double(a << 1) == a << 2 && Double(a << 2) == a << 3 && Double(a << 3) == a << 4
  {
  }

  lemma {:induction false} ProductIsByBits(a: bv32, w: bv32, n: nat)
    ensures Product(a, w, n) == ByBits(a, w, 4 * n)
    decreases n
  {
    hide Turn, Double;
    if n > 0 {
      ProductIsByBits(a << 4, w, n - 1);
      DoublesAre(a);
      assert ByBits(a << 3, w, 4 * n - 3) == Turn(a << 3, w, ByBits(a << 4, w, 4 * n - 4));
      assert ByBits(a << 2, w, 4 * n - 2) == Turn(a << 2, w, ByBits(a << 3, w, 4 * n - 3));
      assert ByBits(a << 1, w, 4 * n - 1) == Turn(a << 1, w, ByBits(a << 2, w, 4 * n - 2));
    }
  }

  lemma TurnShift(a: bv32, w: bv32, r: bv32)
    ensures Turn(a, Shift(w), Shift(r)) == Shift(Turn(a, w, r))
  {
    hide Shift, Xor;
    ShiftLinear(Shift(r), Chosen(a, w));
    ShiftZero();
  }

  lemma {:induction false} ByBitsShift(a: bv32, w: bv32, n: nat)
    ensures ByBits(a, Shift(w), n) == Shift(ByBits(a, w, n))
    decreases n
  {
    hide Shift, Turn, Double;
    if n == 0 {
      ShiftZero();
    } else {
      ByBitsShift(Double(a), w, n - 1);
      TurnShift(a, w, ByBits(Double(a), w, n - 1));
    }
  }

  lemma {:induction false} ByBitsShifts(a: bv32, w: bv32, n: nat, m: nat)
    ensures ByBits(a, Shifts(w, m), n) == Shifts(ByBits(a, w, n), m)
  {
    hide Shift, ByBits;
    if m > 0 {
      ByBitsShifts(a, w, n, m - 1);
      ByBitsShift(a, Shifts(w, m - 1), n);
    }
  }

  /** `a` without its highest bit. */
  function Lowered(a: bv32): bv32 { (a << 1) >> 1 }

  lemma RaisedSet(a: bv32)
    requires a & 0x80000000 != 0
    ensures Xor(Lowered(a), 0x80000000) == a
  {
  }

  lemma RaisedClear(a: bv32)
    requires a & 0x80000000 == 0
    ensures Xor(Lowered(a), 0) == a
  {
  }

  lemma Raised(a: bv32)
    ensures Xor(Lowered(a), Chosen(a, UNIT)) == a
  {
    hide Xor, Lowered;
    if a & 0x80000000 != 0 {
      RaisedSet(a);
    } else {
      RaisedClear(a);
    }
  }

  lemma DoubleIsEven(a: bv32)
    ensures Double(a) & 1 == 0 && Double(a) >> 1 == Lowered(a)
  {
  }

  lemma ShiftOfDouble(a: bv32)
    ensures Shift(Double(a)) == Lowered(a)
  {
    hide Shift, Double, Lowered;
    DoubleIsEven(a);
    ShiftOfEven(Double(a));
  }

  lemma TurnUnit(a: bv32)
    ensures Turn(a, UNIT, Double(a)) == a
  {
    hide Shift, Double, Xor, Lowered, Chosen;
    ShiftOfDouble(a);
    Raised(a);
  }

  function Doubles(a: bv32, n: nat): bv32 {
    if n == 0 then a else Double(Doubles(a, n - 1))
  }

  lemma {:induction false} DoublesTwice(a: bv32, m: nat, n: nat)
    ensures Doubles(Doubles(a, m), n) == Doubles(a, m + n)
  {
    hide Double;
    if n > 0 {
      DoublesTwice(a, m, n - 1);
    }
  }

  lemma Doubles4(a: bv32)
    ensures Doubles(a, 4) == a << 4
  {
    hide Double;
    DoublesAre(a);
    assert Doubles(a, 2) == Double(Doubles(a, 1)) && Doubles(a, 1) == Double(a);
    assert Doubles(a, 4) == Double(Doubles(a, 3)) && Doubles(a, 3) == Double(Doubles(a, 2));
  }

  lemma Doubles16(x: bv32)
    ensures Doubles(x, 16) == x << 16
  {
    hide Doubles;
    var a, b, c := Doubles(x, 4), Doubles(x, 8), Doubles(x, 12);
    Doubles4(x);
    Doubles4(a);
    Doubles4(b);
    Doubles4(c);
    DoublesTwice(x, 4, 4);
    DoublesTwice(x, 8, 4);
    DoublesTwice(x, 12, 4);
  }

  lemma AllDoubled(x: bv32)
    ensures Doubles(x, 32) == 0
  {
    hide Doubles;
    var a := Doubles(x, 16);
    Doubles16(x);
    Doubles16(a);
    DoublesTwice(x, 16, 16);
  }

  lemma {:induction false} ByBitsUnit(a: bv32, n: nat)
    requires n <= 32
    ensures ByBits(Doubles(a, 32 - n), UNIT, n) == Doubles(a, 32 - n)
    decreases n
  {
    hide Turn, Double;
    if n == 0 {
      AllDoubled(a);
    } else {
      ByBitsUnit(a, n - 1);
      TurnUnit(Doubles(a, 32 - n));
      assert Doubles(a, 33 - n) == Double(Doubles(a, 32 - n));
    }
  }

  /** Exponents add up under the product. */
  lemma PowerAdd(m: nat, n: nat)
    ensures Power(m + n) == Product(Power(n), Power(m), 8)
  {
    hide Product, ByBits, Shifts;
    ByBitsUnit(Power(n), 32);
    assert Doubles(Power(n), 0) == Power(n);
    ByBitsShifts(Power(n), UNIT, 32, m);
    ProductIsByBits(Power(n), Power(m), 8);
    ShiftsAdd(UNIT, n, m);
  }

  lemma Times(m: nat, a: bv32, n: nat, b: bv32, c: bv32)
    requires Power(m) == a && Power(n) == b && Product(a, b, 8) == c
    ensures Power(m + n) == c
  {
    hide Product, Power;
    PowerAdd(n, m);
  }

  lemma Squared(n: nat, a: bv32, c: bv32)
    requires Power(n) == a && Product(a, a, 8) == c
    ensures Power(2 * n) == c
  {
    hide Product, Power;
    PowerAdd(n, n);
  }

  lemma PowerOne()
    ensures Power(1) == 0x40000000
  {
    assert Shifts(UNIT, 0) == UNIT;
  }

  lemma Squares0()
    ensures Power(0x1) == 0x40000000 && Power(0x2) == 0x20000000
    ensures Power(0x4) == 0x08000000 && Power(0x8) == 0x00800000
    ensures Power(0x10) == 0x00008000 && Power(0x20) == 0xEDB88320
    ensures Power(0x40) == 0xB1E6B092 && Power(0x80) == 0xA06A2517
  {
    hide Power;
    PowerOne();
    Squared(0x1, 0x40000000, 0x20000000);
    Squared(0x2, 0x20000000, 0x08000000);
    Squared(0x4, 0x08000000, 0x00800000);
    Squared(0x8, 0x00800000, 0x00008000);
    Squared(0x10, 0x00008000, 0xEDB88320);
    Squared(0x20, 0xEDB88320, 0xB1E6B092);
    Squared(0x40, 0xB1E6B092, 0xA06A2517);
  }

  lemma Squares1()
    ensures Power(0x100) == 0xED627DAE && Power(0x200) == 0x88D14467
    ensures Power(0x400) == 0xD7BBFE6A && Power(0x800) == 0xEC447F11
    ensures Power(0x1000) == 0x8E7EA170 && Power(0x2000) == 0x6427800E
    ensures Power(0x4000) == 0x4D47BAE0 && Power(0x8000) == 0x09FE548F
  {
    hide Power;
    Squares0();
    Squared(0x80, 0xA06A2517, 0xED627DAE);
    Squared(0x100, 0xED627DAE, 0x88D14467);
    Squared(0x200, 0x88D14467, 0xD7BBFE6A);
    Squared(0x400, 0xD7BBFE6A, 0xEC447F11);
    Squared(0x800, 0xEC447F11, 0x8E7EA170);
    Squared(0x1000, 0x8E7EA170, 0x6427800E);
    Squared(0x2000, 0x6427800E, 0x4D47BAE0);
    Squared(0x4000, 0x4D47BAE0, 0x09FE548F);
  }

  lemma Squares2()
    ensures Power(0x10000) == 0x83852D0F && Power(0x20000) == 0x30362F1A
    ensures Power(0x40000) == 0x7B5A9CC3 && Power(0x80000) == 0x31FEC169
    ensures Power(0x100000) == 0x9FEC022A && Power(0x200000) == 0x6C8DEDC4
    ensures Power(0x400000) == 0x15D6874D && Power(0x800000) == 0x5FDE7A4E
  {
    hide Power;
    Squares1();
    Squared(0x8000, 0x09FE548F, 0x83852D0F);
    Squared(0x10000, 0x83852D0F, 0x30362F1A);
    Squared(0x20000, 0x30362F1A, 0x7B5A9CC3);
    Squared(0x40000, 0x7B5A9CC3, 0x31FEC169);
    Squared(0x80000, 0x31FEC169, 0x9FEC022A);
    Squared(0x100000, 0x9FEC022A, 0x6C8DEDC4);
    Squared(0x200000, 0x6C8DEDC4, 0x15D6874D);
    Squared(0x400000, 0x15D6874D, 0x5FDE7A4E);
  }

  lemma Squares3()
    ensures Power(0x1000000) == 0xBAD90E37 && Power(0x2000000) == 0x2E4E5EEF
    ensures Power(0x4000000) == 0x4EABA214 && Power(0x8000000) == 0xA8A472C0
    ensures Power(0x10000000) == 0x429A969E && Power(0x20000000) == 0x148D302A
    ensures Power(0x40000000) == 0xC40BA6D0 && Power(0x80000000) == 0xC4E22C3C
  {
    hide Power;
    Squares2();
    Squared(0x800000, 0x5FDE7A4E, 0xBAD90E37);
    Squared(0x1000000, 0xBAD90E37, 0x2E4E5EEF);
    Squared(0x2000000, 0x2E4E5EEF, 0x4EABA214);
    Squared(0x4000000, 0x4EABA214, 0xA8A472C0);
    Squared(0x8000000, 0xA8A472C0, 0x429A969E);
    Squared(0x10000000, 0x429A969E, 0x148D302A);
    Squared(0x20000000, 0x148D302A, 0xC40BA6D0);
    Squared(0x40000000, 0xC40BA6D0, 0xC4E22C3C);
  }

  // ------------------------------------------------------------------------------------------
  // The order of the step
  // ------------------------------------------------------------------------------------------

  const PERIOD: nat := 0xFFFF_FFFF

  lemma SumsOfFours()
    ensures Power(0x10001) == 0xAC7A15A7 && Power(0x1000100) == 0x4630D51A
    ensures Power(0x1010101) == 0x316B5BA1 && Power(0x10101010) == 0x0C283CA0
    ensures Power(0x11111111) == 0x3D436701
  {
    hide Power;
    Squares0();
    Squares1();
    Squares2();
    Squares3();
    Times(0x1, 0x40000000, 0x10000, 0x83852D0F, 0xAC7A15A7);
    Times(0x100, 0xED627DAE, 0x1000000, 0xBAD90E37, 0x4630D51A);
    Times(0x10001, 0xAC7A15A7, 0x1000100, 0x4630D51A, 0x316B5BA1);
    Times(0x10, 0x00008000, 0x100000, 0x9FEC022A, 0x816532E8);
    Times(0x1000, 0x8E7EA170, 0x10000000, 0x429A969E, 0xAC191907);
    Times(0x100010, 0x816532E8, 0x10001000, 0xAC191907, 0x0C283CA0);
    Times(0x1010101, 0x316B5BA1, 0x10101010, 0x0C283CA0, 0x3D436701);
  }

  lemma SumsOfTwos()
    ensures Power(0x44444444) == 0xBD436701 && Power(0x55555555) == 0xC736EB52
  {
    hide Power;
    Squares0();
    Squares1();
    Squares2();
    Squares3();
    SumsOfFours();
    Times(0x4, 0x08000000, 0x40000, 0x7B5A9CC3, 0x216C9960);
    Times(0x400, 0xD7BBFE6A, 0x4000000, 0x4EABA214, 0x72642CA4);
    Times(0x40004, 0x216C9960, 0x4000400, 0x72642CA4, 0xAEBF57A4);
    Times(0x40, 0xB1E6B092, 0x400000, 0x15D6874D, 0x934EE480);
    Times(0x4000, 0x4D47BAE0, 0x40000000, 0xC40BA6D0, 0x0770BA16);
    Times(0x400040, 0x934EE480, 0x40004000, 0x0770BA16, 0x13FC30A5);
    Times(0x4040404, 0xAEBF57A4, 0x40404040, 0x13FC30A5, 0xBD436701);
    Times(0x11111111, 0x3D436701, 0x44444444, 0xBD436701, 0xC736EB52);
  }

  lemma PowerPast(a: nat, b: nat)
    requires Power(a) == UNIT
    ensures Power(a + b) == Power(b)
  {
    hide Shifts;
    ShiftsAdd(UNIT, a, b);
  }

  /** The step does not return to the start after a fifth, a third, ... of its period. */
  lemma NotEarlier()
    ensures Power(PERIOD / 3) != UNIT && Power(PERIOD / 5) != UNIT && Power(PERIOD / 17) != UNIT
    ensures Power(PERIOD / 257) != UNIT && Power(PERIOD / 65537) != UNIT
  {
    hide Power;
    Squares0();
    Squares2();
    SumsOfFours();
    SumsOfTwos();
    if Power(0xFFFF) == UNIT {
      PowerPast(0xFFFF, 1);
    }
    if Power(0xFF00FF) == UNIT {
      PowerPast(0xFF00FF, 0x10001);
    }
    if Power(0xF0F0F0F) == UNIT {
      PowerPast(0xF0F0F0F, 0x1010101);
    }
    if Power(0x33333333) == UNIT {
      PowerPast(0x33333333, 0x11111111);
    }
  }

  lemma PowerNext(n: nat)
    ensures Power(n + 1) == Shift(Power(n))
  {
  }

  lemma PeriodReturns()
    ensures Power(PERIOD) == UNIT
  {
    hide Power;
    Squares3();
    Squared(0x80000000, 0xC4E22C3C, 0x40000000);
    hide Shift;
    PowerOne();
    PowerNext(PERIOD);
    PowerNext(0);
    PowerZero();
    ShiftInjective(Power(PERIOD), UNIT);
  }

  lemma PowerZero()
    ensures Power(0) == UNIT
  {
  }

  /** The word 1 is the power 31. */
  lemma WordOne()
    ensures Power(31) == 1
  {
    hide Power, Shift;
    Squares0();
    PowerNext(31);
    ShiftOfOdd(1);
    ShiftInjective(Power(31), 1);
  }

  lemma {:induction false} PowerOfMultiple(d: nat, t: nat)
    requires Power(d) == UNIT
    ensures Power(d * t) == UNIT
  {
    hide Power;
    if t == 0 {
      PowerZero();
    } else {
      PowerOfMultiple(d, t - 1);
      PowerPast(d * (t - 1), d);
      assert d * (t - 1) + d == d * t;
    }
  }

  ghost predicate Divides(d: nat, n: nat) {
    exists t: nat :: n == d * t
  }

  lemma TimesAssociates(x: int, y: int, z: int)
    ensures x * y * z == x * (y * z)
  {
  }

  lemma TimesDistributes(x: int, y: int, z: int)
    ensures x * y + x * z == x * (y + z)
  {
  }

  lemma DividesSum(g: nat, a: nat, q: nat, r: nat)
    requires Divides(g, a) && Divides(g, r)
    ensures Divides(g, a * q + r)
  {
    var s: nat :| a == g * s;
    var t: nat :| r == g * t;
    calc {
      a * q + r;
      g * s * q + g * t;
      { TimesAssociates(g, s, q); }
      g * (s * q) + g * t;
      { TimesDistributes(g, s * q, t); }
      g * (s * q + t);
    }
  }

  /** A greatest common divisor as a combination of the two numbers. */
  lemma {:induction false} Bezout(a: nat, b: nat) returns (g: nat, u: int, v: int)
    requires a > 0
    ensures g > 0 && u * a + v * b == g && Divides(g, a) && Divides(g, b)
    decreases b
  {
    if b == 0 {
      g, u, v := a, 1, 0;
      assert a == a * 1 && 0 == a * 0;
    } else {
      var q, r := a / b, a % b;
      var s, t: int;
      g, s, t := Bezout(b, r);
      DividesSum(g, b, q, r);
      u, v := t, s - t * q;
      Combination(a, b, q, r, s, t);
    }
  }

  lemma Combination(a: nat, b: nat, q: nat, r: nat, s: int, t: int)
    requires a == b * q + r
    ensures t * a + (s - t * q) * b == s * b + t * r
  {
    TimesDistributes(t, b * q, r);
    TimesSwaps(t, b, q);
    TimesDistributes(b, s, -(t * q));
  }

  /** Both exponents return to the start, and so does their greatest common divisor. */
  lemma {:induction false} PowerOfGcd(a: nat, b: nat) returns (g: nat)
    requires a > 0 && Power(a) == UNIT && Power(b) == UNIT
    ensures g > 0 && Divides(g, a) && Divides(g, b) && Power(g) == UNIT
    decreases b
  {
    hide Power;
    if b == 0 {
      g := a;
      assert a == a * 1 && 0 == a * 0;
    } else {
      var q, r := a / b, a % b;
      PowerOfMultiple(b, q);
      PowerPast(b * q, r);
      g := PowerOfGcd(b, r);
      DividesSum(g, b, q, r);
    }
  }

  ghost predicate Prime(q: nat) {
    q > 1 && forall d: nat :: Divides(d, q) ==> d == 1 || d == q
  }

  /** A prime that does not divide `h` can be left out of a multiple of `h`. */
  lemma LeaveOut(q: nat, m: nat, h: nat)
    requires Prime(q) && h > 0 && Divides(h, q * m) && !Divides(q, h)
    ensures Divides(h, m)
  {
    var g, u, v := Bezout(q, h);
    assert g == 1;
    var t: nat :| q * m == h * t;
    CombinedMultiple(u, q, v, h, m, t);
    QuotientIsNat(m, h, u * t + v * m);
  }

  lemma CombinedMultiple(u: int, q: nat, v: int, h: nat, m: nat, t: nat)
    requires u * q + v * h == 1 && q * m == h * t
    ensures m == h * (u * t + v * m)
  {
    calc {
      m;
      m * (u * q + v * h);
      { TimesDistributes(m, u * q, v * h); }
      m * (u * q) + m * (v * h);
      { TimesSwaps(m, u, q); TimesSwaps(m, v, h); }
      u * (q * m) + v * (h * m);
      { TimesSwaps(u, h, t); TimesSwaps(v, h, m); }
      h * (u * t) + h * (v * m);
      { TimesDistributes(h, u * t, v * m); }
      h * (u * t + v * m);
    }
  }

  lemma TimesSwaps(x: int, y: int, z: int)
    ensures x * (y * z) == y * (z * x) && x * (y * z) == y * (x * z)
  {
  }

  lemma QuotientIsNat(m: nat, h: nat, k: int)
    requires h > 0 && m == h * k
    ensures Divides(h, m)
  {
    if k < 0 {
      NegativeProduct(h, k);
    }
  }

  lemma NegativeProduct(h: nat, k: int)
    requires h > 0 && k < 0
    ensures h * k < 0
  {
  }

  predicate Leaves(q: nat, d: nat)
    requires d > 0
  {
    q % d != 0
  }

  /** None of `lo`, `lo + 2`, ..., `lo + 16 * n - 2` divides `q`. */
  predicate NoDivisor(q: nat, lo: nat, n: nat)
    requires lo > 0
    decreases n
  {
    n == 0
    || (&& Leaves(q, lo) && Leaves(q, lo + 2) && Leaves(q, lo + 4) && Leaves(q, lo + 6)
        && Leaves(q, lo + 8) && Leaves(q, lo + 10) && Leaves(q, lo + 12) && Leaves(q, lo + 14)
        && NoDivisor(q, lo + 16, n - 1))
  }

  lemma {:induction false} NoDivisorMeans(q: nat, lo: nat, n: nat, d: nat)
    requires lo % 2 == 1 && NoDivisor(q, lo, n) && lo <= d < lo + 16 * n && d % 2 == 1
    ensures Leaves(q, d)
    decreases n
  {
    hide Leaves;
    if d >= lo + 16 {
      NoDivisorMeans(q, lo + 16, n - 1, d);
    }
  }

  lemma EvenProduct(d: nat, t: nat)
    requires d % 2 == 0
    ensures d * t % 2 == 0
  {
    assert d * t == d / 2 * t * 2;
  }

  /** Trial division: an odd number without odd divisors up to its square root is prime. */
  lemma PrimeBy(q: nat, s: nat)
    requires q % 2 == 1 && 1 < q < s * s && forall d: nat :: 2 <= d < s && d % 2 == 1 ==> Leaves(q, d)
    ensures Prime(q)
  {
    forall d: nat | Divides(d, q)
      ensures d == 1 || d == q
    {
      var t: nat :| q == d * t;
      if d % 2 == 0 {
        EvenProduct(d, t);
      } else if t % 2 == 0 {
        EvenProduct(t, d);
      } else if d >= 2 && t >= 2 {
        MultipleRemainder(t, d);
        MultipleRemainder(d, t);
        assert !Leaves(q, d) && !Leaves(q, t);
        Larger(d, t, s);
      }
    }
  }

  lemma Larger(d: nat, t: nat, s: nat)
    ensures d >= s && t >= s ==> d * t >= s * s
  {
  }

  lemma SmallPrimes()
    ensures Prime(3) && Prime(5) && Prime(17)
  {
    hide Prime;
    assert Leaves(17, 3);
    PrimeBy(3, 2);
    PrimeBy(5, 3);
    PrimeBy(17, 5);
  }

  lemma Prime257()
    ensures Prime(257)
  {
    hide Prime;
    assert NoDivisor(257, 3, 1);
    hide NoDivisor, Leaves;
    forall d: nat | 2 <= d < 17 && d % 2 == 1
      ensures Leaves(257, d)
    {
      NoDivisorMeans(257, 3, 1, d);
    }
    PrimeBy(257, 17);
  }

  lemma NoDivisorTo129()
    ensures NoDivisor(65537, 3, 4) && NoDivisor(65537, 67, 4)
  {
  }

  lemma NoDivisorTo257()
    ensures NoDivisor(65537, 131, 4) && NoDivisor(65537, 195, 4)
  {
  }

  lemma Prime65537()
    ensures Prime(65537)
  {
    hide Prime, NoDivisor, Leaves;
    NoDivisorTo129();
    NoDivisorTo257();
    forall d: nat | 2 <= d < 257 && d % 2 == 1
      ensures Leaves(65537, d)
    {
      if d < 67 {
        NoDivisorMeans(65537, 3, 4, d);
      } else if d < 131 {
        NoDivisorMeans(65537, 67, 4, d);
      } else if d < 195 {
        NoDivisorMeans(65537, 131, 4, d);
      } else {
        NoDivisorMeans(65537, 195, 4, d);
      }
    }
    PrimeBy(65537, 257);
  }

  /** Every number above 1 that divides the period is a multiple of one of its five primes. */
  lemma OneOfFive(h: nat)
    requires h > 1 && Divides(h, PERIOD)
    ensures Divides(3, h) || Divides(5, h) || Divides(17, h) || Divides(257, h) || Divides(65537, h)
  {
    hide Divides, Prime;
    SmallPrimes();
    Prime257();
    Prime65537();
    if !Divides(3, h) && !Divides(5, h) && !Divides(17, h) && !Divides(257, h) && !Divides(65537, h) {
      assert PERIOD == 3 * (5 * (17 * (257 * (65537 * 1))));
      LeaveOut(3, 5 * (17 * (257 * (65537 * 1))), h);
      LeaveOut(5, 17 * (257 * (65537 * 1)), h);
      LeaveOut(17, 257 * (65537 * 1), h);
      LeaveOut(257, 65537 * 1, h);
      LeaveOut(65537, 1, h);
      OneHasNoDivisor(h);
    }
  }

  lemma OneHasNoDivisor(h: nat)
    requires h > 1
    ensures !Divides(h, 1)
  {
    forall t: nat
      ensures 1 != h * t
    {
      MultipleSize(t, h);
    }
  }

  /** A power whose exponent is a divisor of the period other than the period itself is not the start. */
  lemma DivisorIsTooEarly(g: nat, q: nat, h: nat)
    requires q > 0 && PERIOD == g * h && Divides(q, h) && Power(g) == UNIT
    ensures Power(PERIOD / q) == UNIT
  {
    hide Power;
    var t: nat :| h == q * t;
    TimesSwaps(g, q, t);
    UniqueQuotient(PERIOD, q, g * t, 0);
    PowerOfMultiple(g, t);
  }

  lemma NoProperDivisor(g: nat)
    requires 0 < g && Divides(g, PERIOD) && Power(g) == UNIT
    ensures g == PERIOD
  {
    hide Power;
    var h: nat :| PERIOD == g * h;
    if h > 1 {
      assert PERIOD == h * g;
      assert Divides(h, PERIOD);
      OneOfFive(h);
      NotEarlier();
      hide Divides;
      if Divides(3, h) {
        DivisorIsTooEarly(g, 3, h);
      } else if Divides(5, h) {
        DivisorIsTooEarly(g, 5, h);
      } else if Divides(17, h) {
        DivisorIsTooEarly(g, 17, h);
      } else if Divides(257, h) {
        DivisorIsTooEarly(g, 257, h);
      } else {
        DivisorIsTooEarly(g, 65537, h);
      }
    }
  }

  /** The step returns to the start exactly after multiples of 2^32 - 1 turns. */
  lemma PowerReturnsIff(d: nat)
    ensures Power(d) == UNIT <==> d % PERIOD == 0
  {
    hide Power, Divides;
    var q, r := d / PERIOD, d % PERIOD;
    PeriodReturns();
    PowerOfMultiple(PERIOD, q);
    PowerPast(PERIOD * q, r);
    PowerZero();
    if r > 0 && Power(r) == UNIT {
      var g := PowerOfGcd(r, PERIOD);
      NoProperDivisor(g);
      DivisorIsSmaller(g, r);
    }
  }

  lemma DivisorIsSmaller(g: nat, r: nat)
    requires Divides(g, r) && g > 0 && r > 0
    ensures g <= r
  {
    var t: nat :| r == g * t;
    MultipleSize(t, g);
  }

  // ------------------------------------------------------------------------------------------
  // Three terms that cancel
  // ------------------------------------------------------------------------------------------

  lemma LongerTermHigh()
    ensures Power(0x16500) == 0x0975821E
  {
    hide Power;
    Squares1();
    Squares2();
    Times(0x10000, 0x83852D0F, 0x4000, 0x4D47BAE0, 0x4E2F9AC3);
    Times(0x14000, 0x4E2F9AC3, 0x2000, 0x6427800E, 0x4CCD837B);
    Times(0x16000, 0x4CCD837B, 0x400, 0xD7BBFE6A, 0x0C9B405E);
    Times(0x16400, 0x0C9B405E, 0x100, 0xED627DAE, 0x0975821E);
  }

  lemma LongerTerm()
    ensures Power(91639) == 0x0A02228B
  {
    hide Power;
    Squares0();
    LongerTermHigh();
    Times(0x16500, 0x0975821E, 0x80, 0xA06A2517, 0xC9FD5EDF);
    Times(0x16580, 0xC9FD5EDF, 0x40, 0xB1E6B092, 0xE1DE7637);
    Times(0x165c0, 0xE1DE7637, 0x20, 0xEDB88320, 0xF536EE85);
    Times(0x165e0, 0xF536EE85, 0x10, 0x00008000, 0x01465647);
    Times(0x165f0, 0x01465647, 0x4, 0x08000000, 0x50111458);
    Times(0x165f4, 0x50111458, 0x2, 0x20000000, 0x14044516);
    Times(0x165f6, 0x14044516, 0x1, 0x40000000, 0x0A02228B);
  }

  lemma ShorterTerm()
    ensures Power(41678) == 0x8A02228B
  {
    hide Power;
    Squares0();
    Squares1();
    Times(0x8000, 0x09FE548F, 0x2000, 0x6427800E, 0x923B0526);
    Times(0xa000, 0x923B0526, 0x200, 0x88D14467, 0xDCA18701);
    Times(0xa200, 0xDCA18701, 0x80, 0xA06A2517, 0x9BACB3E1);
    Times(0xa280, 0x9BACB3E1, 0x40, 0xB1E6B092, 0x96EFB756);
    Times(0xa2c0, 0x96EFB756, 0x8, 0x00800000, 0x829E1B76);
    Times(0xa2c8, 0x829E1B76, 0x4, 0x08000000, 0x459B80EF);
    Times(0xa2cc, 0x459B80EF, 0x2, 0x20000000, 0x8A02228B);
  }

  lemma ThreeTermsCancel()
    ensures Xor(Power(91639), Power(41678)) == UNIT
  {
    LongerTerm();
    ShorterTerm();
  }

  // ------------------------------------------------------------------------------------------
  // What an error does to the register
  // ------------------------------------------------------------------------------------------

  /** The difference of the registers after `n` bits of two strings. */
  function Difference(a: seq<bool>, b: seq<bool>, n: nat): bv32
    requires n <= |a| == |b|
  {
    if n == 0 then 0 else Shift(Xor(Difference(a, b, n - 1), BitWord(a[n - 1] != b[n - 1])))
  }

  lemma BothFlipped(x: bv32, y: bv32)
    ensures Xor(Xor(x, 1), Xor(y, 1)) == Xor(Xor(x, y), 0)
  {
  }

  lemma FirstFlipped(x: bv32, y: bv32)
    ensures Xor(Xor(x, 1), Xor(y, 0)) == Xor(Xor(x, y), 1)
  {
  }

  lemma SecondFlipped(x: bv32, y: bv32)
    ensures Xor(Xor(x, 0), Xor(y, 1)) == Xor(Xor(x, y), 1)
  {
  }

  lemma NoneFlipped(x: bv32, y: bv32)
    ensures Xor(Xor(x, 0), Xor(y, 0)) == Xor(Xor(x, y), 0)
  {
  }

  lemma XorPairs(x: bv32, y: bv32, s: bool, t: bool)
    ensures Xor(Xor(x, BitWord(s)), Xor(y, BitWord(t))) == Xor(Xor(x, y), BitWord(s != t))
  {
    hide Xor;
    BothFlipped(x, y);
    FirstFlipped(x, y);
    SecondFlipped(x, y);
    NoneFlipped(x, y);
  }

  lemma StepDifference(x: bv32, y: bv32, s: bool, t: bool)
    ensures Xor(Step(x, s), Step(y, t)) == Shift(Xor(Xor(x, y), BitWord(s != t)))
  {
    hide Shift, Xor, BitWord;
    XorPairs(x, y, s, t);
    ShiftLinear(Xor(x, BitWord(s)), Xor(y, BitWord(t)));
  }

  lemma XorSelf(x: bv32)
    ensures Xor(x, x) == 0
  {
  }

  lemma FeedOneMore(c: bv32, a: seq<bool>, n: nat)
    requires n < |a|
    ensures FeedBits(c, a[..n + 1]) == Step(FeedBits(c, a[..n]), a[n])
  {
    hide Step;
    var r := FeedBits(c, a[..n]);
    assert a[..n] + [a[n]] == a[..n + 1];
    FeedBitsAdd(c, a[..n], [a[n]]);
    assert FeedBits(r, [a[n]]) == FeedBits(Step(r, a[n]), []);
  }

  lemma {:induction false} FeedDifference(c: bv32, a: seq<bool>, b: seq<bool>, n: nat)
    requires n <= |a| == |b|
    ensures Xor(FeedBits(c, a[..n]), FeedBits(c, b[..n])) == Difference(a, b, n)
  {
    hide Step, Shift, Xor, BitWord, FeedBits;
    if n == 0 {
      assert a[..0] == b[..0];
      XorSelf(FeedBits(c, a[..0]));
    } else {
      FeedDifference(c, a, b, n - 1);
      FeedOneMore(c, a, n - 1);
      FeedOneMore(c, b, n - 1);
      StepDifference(FeedBits(c, a[..n - 1]), FeedBits(c, b[..n - 1]), a[n - 1], b[n - 1]);
    }
  }

  /** The two strings differ in the positions of `errors` and nowhere else. */
  predicate DifferAt(a: seq<bool>, b: seq<bool>, errors: set<nat>) {
    |a| == |b| && forall i: nat :: i < |a| ==> (a[i] != b[i] <==> i in errors)
  }

  lemma {:induction false} DifferenceAcross(a: seq<bool>, b: seq<bool>, lo: nat, hi: nat)
    requires lo <= hi <= |a| == |b| && forall i :: lo <= i < hi ==> a[i] == b[i]
    ensures Difference(a, b, hi) == Shifts(Difference(a, b, lo), hi - lo)
    decreases hi
  {
    hide Shift, Xor;
    if lo < hi {
      DifferenceAcross(a, b, lo, hi - 1);
      XorZero(Difference(a, b, hi - 1));
    }
  }

  lemma DifferenceAt(a: seq<bool>, b: seq<bool>, i: nat)
    requires i < |a| == |b| && a[i] != b[i]
    ensures Difference(a, b, i + 1) == Shift(Xor(Difference(a, b, i), 1))
  {
    hide Shift, Xor;
  }

  lemma {:induction false} ShiftsOfZero(n: nat)
    ensures Shifts(0, n) == 0
  {
    hide Shift;
    if n > 0 {
      ShiftsOfZero(n - 1);
      ShiftZero();
    }
  }

  lemma ZeroXor(x: bv32)
    ensures Xor(0, x) == x
  {
  }

  lemma XorIsZeroIff(x: bv32, y: bv32)
    ensures Xor(x, y) == 0 <==> x == y
  {
    hide Xor;
    XorSelf(y);
    if Xor(x, y) == 0 {
      XorInjectiveLeft(x, y, y);
    }
  }

  lemma ShiftsZeroIff(x: bv32, n: nat)
    ensures Shifts(x, n) == 0 <==> x == 0
  {
    hide Shifts;
    ShiftsOfZero(n);
    if Shifts(x, n) == 0 {
      ShiftsInjective(x, 0, n);
    }
  }

  /** After the first error, and up to the next. */
  lemma AfterFirst(a: seq<bool>, b: seq<bool>, i: nat, j: nat)
    requires i < j <= |a| == |b| && a[i] != b[i] && forall k :: 0 <= k < j && k != i ==> a[k] == b[k]
    ensures Difference(a, b, j) == Shifts(1, j - i)
  {
    hide Shift, Xor, Shifts, Difference;
    assert Difference(a, b, 0) == 0 by { NoDifference(a, b); }
    DifferenceAcross(a, b, 0, i);
    ShiftsOfZero(i);
    DifferenceAt(a, b, i);
    ZeroXor(1);
    DifferenceAcross(a, b, i + 1, j);
    ShiftsFirst(1, j - i - 1);
  }

  lemma NoDifference(a: seq<bool>, b: seq<bool>)
    requires |a| == |b|
    ensures Difference(a, b, 0) == 0
  {
  }

  /** After a second error, and up to the next. */
  lemma AfterSecond(a: seq<bool>, b: seq<bool>, i: nat, j: nat, k: nat)
    requires i < j < k <= |a| == |b| && a[i] != b[i] && a[j] != b[j]
    requires forall n :: 0 <= n < k && n != i && n != j ==> a[n] == b[n]
    ensures Difference(a, b, k) == Shifts(Xor(Shifts(1, j - i), 1), k - j)
  {
    hide Shift, Xor, Shifts, Difference;
    AfterFirst(a, b, i, j);
    DifferenceAt(a, b, j);
    DifferenceAcross(a, b, j + 1, k);
    ShiftsFirst(Xor(Shifts(1, j - i), 1), k - j - 1);
  }

  /** The word 1 is a power, so what is said of it can be said of the powers. */
  lemma FromWordOne(n: nat)
    ensures Shifts(1, n) == Shifts(Power(n), 31)
  {
    hide Shifts;
    WordOne();
    ShiftsAdd(UNIT, 31, n);
    ShiftsAdd(UNIT, n, 31);
  }

  lemma TwoErrors(a: seq<bool>, b: seq<bool>, i: nat, j: nat)
    requires i < j < |a| && DifferAt(a, b, {i, j})
    ensures Difference(a, b, |a|) == 0 <==> (j - i) % PERIOD == 0
  {
    hide Shift, Xor, Shifts, Difference, Power;
    AfterSecond(a, b, i, j, |a|);
    ShiftsZeroIff(Xor(Shifts(1, j - i), 1), |a| - j);
    XorIsZeroIff(Shifts(1, j - i), 1);
    FromWordOne(j - i);
    FromWordOne(0);
    PowerZero();
    assert Shifts(1, 0) == 1 by { NoShifts(); }
    if Shifts(1, j - i) == 1 {
      ShiftsInjective(Power(j - i), UNIT, 31);
    }
    PowerReturnsIff(j - i);
  }

  lemma NoShifts()
    ensures Shifts(1, 0) == 1
  {
  }

  lemma ThreeErrors(a: seq<bool>, b: seq<bool>, i: nat, j: nat, k: nat)
    requires i < j < k < |a| && DifferAt(a, b, {i, j, k})
    ensures Difference(a, b, |a|) == 0 <==> Xor(Power(k - i), Power(k - j)) == UNIT
  {
    hide Shift, Xor, Shifts, Difference, Power;
    var p, q := Shifts(1, k - i), Shifts(1, k - j);
    AfterSecond(a, b, i, j, k);
    ShiftsLinear(Shifts(1, j - i), 1, k - j);
    ShiftsAdd(1, j - i, k - j);
    assert Difference(a, b, k) == Xor(p, q);
    DifferenceAt(a, b, k);
    DifferenceAcross(a, b, k + 1, |a|);
    ShiftsZeroIff(Shift(Xor(Xor(p, q), 1)), |a| - (k + 1));
    ShiftZeroIff(Xor(Xor(p, q), 1));
    XorIsZeroIff(Xor(p, q), 1);
    FromWordOne(k - i);
    FromWordOne(k - j);
    FromWordOne(0);
    PowerZero();
    NoShifts();
    ShiftsLinear(Power(k - i), Power(k - j), 31);
    if Xor(p, q) == 1 {
      ShiftsInjective(Xor(Power(k - i), Power(k - j)), UNIT, 31);
    }
  }

  lemma ShiftZeroIff(x: bv32)
    ensures Shift(x) == 0 <==> x == 0
  {
    hide Shift;
    ShiftZero();
    if Shift(x) == 0 {
      ShiftInjective(x, 0);
    }
  }

  // ------------------------------------------------------------------------------------------
  // Which errors in a frame are caught
  // ------------------------------------------------------------------------------------------

  /** A changed frame still carries its own check value exactly if the change leaves no difference in the register. */
  lemma CheckedIffNoDifference(m: seq<bv8>, m': seq<bv8>)
    requires Checked(m) && |m'| == |m|
    ensures Checked(m') <==> Difference(BitsOf(m), BitsOf(m'), 8 * |m|) == 0
  {
    hide Shift, Xor, Bytes, BitsOf, FeedBits, FeedAll, Difference, Shifts;
    assert |m| >= 4;
    var a, b := BitsOf(m), BitsOf(m');
    CheckedIffResidue(m);
    CheckedIffResidue(m');
    FeedAllIsBits(INITIAL, m);
    FeedAllIsBits(INITIAL, m');
    assert a[..8 * |m|] == a && b[..8 * |m|] == b;
    FeedDifference(INITIAL, a, b, 8 * |m|);
    XorIsZeroIff(FeedBits(INITIAL, a), FeedBits(INITIAL, b));
  }

  /**
   * Two wrong bits in a frame that carried its check value go unnoticed exactly if they are a multiple of
   * 2^32 - 1 bits apart, whatever the frame holds.
   */
  lemma TwoBitsUnnoticedIff(m: seq<bv8>, m': seq<bv8>, i: nat, j: nat)
    requires Checked(m) && |m'| == |m| && i < j < 8 * |m| && DifferAt(BitsOf(m), BitsOf(m'), {i, j})
    ensures Checked(m') <==> (j - i) % PERIOD == 0
  {
    hide DifferAt, Checked, BitsOf;
    CheckedIffNoDifference(m, m');
    TwoErrors(BitsOf(m), BitsOf(m'), i, j);
  }

  /** Three wrong bits go unnoticed exactly if their distances from the last one are powers that differ by 1. */
  lemma ThreeBitsUnnoticedIff(m: seq<bv8>, m': seq<bv8>, i: nat, j: nat, k: nat)
    requires Checked(m) && |m'| == |m| && i < j < k < 8 * |m| && DifferAt(BitsOf(m), BitsOf(m'), {i, j, k})
    ensures Checked(m') <==> Xor(Power(k - i), Power(k - j)) == UNIT
  {
    hide DifferAt, Checked, BitsOf, Power, Xor;
    CheckedIffNoDifference(m, m');
    ThreeErrors(BitsOf(m), BitsOf(m'), i, j, k);
  }

  // ------------------------------------------------------------------------------------------
  // Three bits that always go unnoticed
  // ------------------------------------------------------------------------------------------

  lemma {:induction false} BitOfByte(data: seq<bv8>, k: nat, t: nat)
    requires k < |data| && t < 8
    ensures BitsOf(data)[8 * k + t] == Octets.DigitsOfByte(data[k])[t]
  {
    if k < |data| - 1 {
      BitOfByte(data[..|data| - 1], k, t);
    }
  }

  function Flip(b: bv8, mask: bv8): bv8 { b ^ mask }

  lemma FlipLowest(b: bv8, t: nat)
    requires t < 8
    ensures Octets.DigitsOfByte(Flip(b, 0x01))[t] != Octets.DigitsOfByte(b)[t] <==> t == 0
  {
  }

  lemma FlipSecond(b: bv8, t: nat)
    requires t < 8
    ensures Octets.DigitsOfByte(Flip(b, 0x02))[t] != Octets.DigitsOfByte(b)[t] <==> t == 1
  {
  }

  lemma FlipHighest(b: bv8, t: nat)
    requires t < 8
    ensures Octets.DigitsOfByte(Flip(b, 0x80))[t] != Octets.DigitsOfByte(b)[t] <==> t == 7
  {
  }

  /** Bit 0 of byte `u`, bit 1 of byte `u + 6245` and bit 7 of byte `u + 11454`, the other way round. */
  function FlipThree(m: seq<bv8>, u: nat): (m': seq<bv8>)
    requires u + 11454 < |m|
    ensures |m'| == |m|
  {
    m[u := Flip(m[u], 0x01)][u + 6245 := Flip(m[u + 6245], 0x02)][u + 11454 := Flip(m[u + 11454], 0x80)]
  }

  lemma FlippedBits(m: seq<bv8>, u: nat)
    requires u + 11454 < |m|
    ensures DifferAt(BitsOf(m), BitsOf(FlipThree(m, u)), {8 * u, 8 * u + 49961, 8 * u + 91639})
  {
    hide BitsOf, FlipThree;
    var a, b, errors := BitsOf(m), BitsOf(FlipThree(m, u)), {8 * u, 8 * u + 49961, 8 * u + 91639};
    forall i: nat | i < |a|
      ensures a[i] != b[i] <==> i in errors
    {
      FlippedAt(m, u, i);
    }
  }

  lemma FlippedAt(m: seq<bv8>, u: nat, i: nat)
    requires u + 11454 < |m| && i < 8 * |m|
    ensures BitsOf(m)[i] != BitsOf(FlipThree(m, u))[i] <==> i in {8 * u, 8 * u + 49961, 8 * u + 91639}
  {
    hide BitsOf, FlipThree;
    FlippedBit(m, u, i / 8, i % 8);
    FlippedPlace(u, i / 8, i % 8);
  }

  lemma FlippedPlace(u: nat, k: nat, t: nat)
    requires t < 8
    ensures 8 * k + t in {8 * u, 8 * u + 49961, 8 * u + 91639}
       <==> (k == u && t == 0) || (k == u + 6245 && t == 1) || (k == u + 11454 && t == 7)
  {
  }

  /** What has become of byte `k`. */
  lemma FlippedByte(m: seq<bv8>, u: nat, k: nat)
    requires u + 11454 < |m| && k < |m|
    ensures FlipThree(m, u)[k] == if k == u then Flip(m[k], 0x01)
                                  else if k == u + 6245 then Flip(m[k], 0x02)
                                  else if k == u + 11454 then Flip(m[k], 0x80)
                                  else m[k]
  {
    hide Flip;
  }

  lemma FlippedBit(m: seq<bv8>, u: nat, k: nat, t: nat)
    requires u + 11454 < |m| && k < |m| && t < 8
    ensures BitsOf(m)[8 * k + t] != BitsOf(FlipThree(m, u))[8 * k + t]
       <==> (k == u && t == 0) || (k == u + 6245 && t == 1) || (k == u + 11454 && t == 7)
  {
    hide BitsOf, Octets.DigitsOfByte, Flip, FlipThree;
    BitOfByte(m, k, t);
    BitOfByte(FlipThree(m, u), k, t);
    FlippedByte(m, u, k);
    FlipLowest(m[k], t);
    FlipSecond(m[k], t);
    FlipHighest(m[k], t);
  }

  /**
   * In every frame of more than 11454 bytes these three bits can be turned round unnoticed, wherever in the frame
   * they begin.
   */
  lemma ThreeBitsUnnoticed(m: seq<bv8>, u: nat)
    requires Checked(m) && u + 11454 < |m|
    ensures Checked(FlipThree(m, u)) && FlipThree(m, u) != m
    ensures DifferAt(BitsOf(m), BitsOf(FlipThree(m, u)), {8 * u, 8 * u + 49961, 8 * u + 91639})
  {
    hide DifferAt, Checked, BitsOf, Power, Xor, Flip;
    FlippedBits(m, u);
    ThreeBitsUnnoticedIff(m, FlipThree(m, u), 8 * u, 8 * u + 49961, 8 * u + 91639);
    ThreeTermsCancel();
    Flipped(m[u]);
    assert FlipThree(m, u)[u] == Flip(m[u], 0x01);
  }

  lemma Flipped(b: bv8)
    ensures Flip(b, 0x01) != b
  {
  }
}
