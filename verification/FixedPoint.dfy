/**
 * Fixed-point arithmetic of `scripts/aegis`: numbers are raw integers scaled by a power of two, products are
 * built by shifting and adding, and results are clamped to their width.
 */
module FixedPoint {
  import opened Prelude

  // ------------------------------------------------------------------------------------------
  // Formats and clamping
  // ------------------------------------------------------------------------------------------

  datatype Format = Format(intBits: nat, fracBits: nat, saturate: bool) {
    function Width(): nat { intBits + fracBits }
  }

  /** A number type has at least one bit. */
  predicate Usable(f: Format) { f.Width() >= 1 }

  function MaxRaw(f: Format): int
    requires Usable(f)
  {
    Power2(f.Width() - 1) - 1
  }

  function MinRaw(f: Format): int
    requires Usable(f)
  {
    -Power2(f.Width() - 1)
  }

  predicate InRange(f: Format, raw: int)
    requires Usable(f)
  {
    MinRaw(f) <= raw <= MaxRaw(f)
  }

  function Saturate(lo: int, hi: int, x: int): int {
    if x > hi then hi else if x < lo then lo else x
  }

  /** The lowest bits, read as two's complement. */
  function Wrap(width: nat, x: int): int
    requires width >= 1
  {
    var low := x % Power2(width);
    if low >= Power2(width - 1) then low - Power2(width) else low
  }

  function Clamp(f: Format, raw: int): int
    requires Usable(f)
  {
    if f.saturate then Saturate(MinRaw(f), MaxRaw(f), raw) else Wrap(f.Width(), raw)
  }

  lemma WrapIs(width: nat, x: int)
    requires width >= 1
    ensures -Power2(width - 1) <= Wrap(width, x) < Power2(width - 1)
    ensures (x - Wrap(width, x)) % Power2(width) == 0
    ensures -Power2(width - 1) <= x < Power2(width - 1) ==> Wrap(width, x) == x
  {
    var p := Power2(width);
    assert p == 2 * Power2(width - 1);
    QuotientRemainder(x, p);
    var low, q := x % p, x / p;
    assert x - Wrap(width, x) == (if low >= Power2(width - 1) then q + 1 else q) * p;
    MultipleRemainder(q, p);
    MultipleRemainder(q + 1, p);
    if 0 <= x < Power2(width - 1) {
      SmallRemainder(x, p);
    } else if -Power2(width - 1) <= x < 0 {
      SmallRemainder(x + p, p);
      ShiftedRemainder(x, p);
    }
  }

  /** Clamping lands in range and changes nothing that is in range; wrapping keeps the residue. */
  lemma ClampIs(f: Format, raw: int)
    requires Usable(f)
    ensures InRange(f, Clamp(f, raw)) && (Clamp(f, raw) == raw <==> InRange(f, raw))
    ensures f.saturate && raw > MaxRaw(f) ==> Clamp(f, raw) == MaxRaw(f)
    ensures f.saturate && raw < MinRaw(f) ==> Clamp(f, raw) == MinRaw(f)
    ensures !f.saturate ==> (raw - Clamp(f, raw)) % Power2(f.Width()) == 0
  {
    hide Wrap;
    WrapIs(f.Width(), raw);
  }

  // ------------------------------------------------------------------------------------------
  // Shift and add
  // ------------------------------------------------------------------------------------------

  function Abs(x: int): nat { if x < 0 then -x else x }

  /** Bit `i` of a number. */
  predicate BitSet(x: nat, i: nat) { x / Power2(i) % 2 == 1 }

  lemma LowBits(x: nat, i: nat)
    ensures x % Power2(i + 1) == x % Power2(i) + if BitSet(x, i) then Power2(i) else 0
  {
    var p := Power2(i);
    var q, r := x / p, x % p;
    QuotientRemainder(x, p);
    assert q == q / 2 * 2 + q % 2;
    assert x == q / 2 * (2 * p) + (q % 2 * p + r) by {
      assert q * p == (q / 2 * 2 + q % 2) * p == q / 2 * (2 * p) + q % 2 * p;
    }
    UniqueQuotient(x, 2 * p, q / 2, q % 2 * p + r);
  }

  /** The product of a magnitude with the lowest `width` bits of another. */
  function PartialProduct(a: nat, b: nat, width: nat): (p: nat) {
    NonNegative(a, b % Power2(width));
    a * (b % Power2(width))
  }

  lemma NonNegative(a: nat, b: int)
    requires b >= 0
    ensures a * b >= 0
  {
  }

  lemma PartialProductNext(a: nat, b: nat, i: nat)
    ensures PartialProduct(a, b, i + 1) == PartialProduct(a, b, i) + if BitSet(b, i) then a * Power2(i) else 0
  {
    LowBits(b, i);
    if BitSet(b, i) {
      assert a * (b % Power2(i) + Power2(i)) == a * (b % Power2(i)) + a * Power2(i);
    }
  }

  lemma PartialProductWhole(a: nat, b: nat, width: nat)
    requires b < Power2(width)
    ensures PartialProduct(a, b, width) == a * b
  {
    SmallRemainder(b, Power2(width));
  }

  /** The shift-add loop: one shifted multiplicand for every set bit of the multiplier. */
  method ShiftAdd(aMag: nat, bMag: nat, width: nat) returns (acc: nat)
    ensures acc == PartialProduct(aMag, bMag, width)
    ensures bMag < Power2(width) ==> acc == aMag * bMag
  {
    hide PartialProduct, BitSet;
    acc := 0;
    assert PartialProduct(aMag, bMag, 0) == 0 by { NoBits(aMag, bMag); }
    for i := 0 to width
      invariant acc == PartialProduct(aMag, bMag, i)
    {
      PartialProductNext(aMag, bMag, i);
      if BitSet(bMag, i) {
        acc := acc + aMag * Power2(i);
      }
    }
    if bMag < Power2(width) {
      PartialProductWhole(aMag, bMag, width);
    }
  }

  lemma NoBits(a: nat, b: nat)
    ensures PartialProduct(a, b, 0) == 0
  {
  }

  /** A product is the product of the magnitudes with the sign of the operands. */
  lemma SignOfProduct(a: int, b: int)
    ensures a * b == if (a < 0) != (b < 0) then -(Abs(a) * Abs(b)) else Abs(a) * Abs(b)
  {
    if a < 0 && b < 0 {
      assert (-a) * (-b) == a * b;
    } else if a < 0 {
      assert (-a) * b == -(a * b);
    } else if b < 0 {
      assert a * (-b) == -(a * b);
    }
  }

  /** The product with the 16 lowest bits of the multiplier's magnitude. */
  function FullProduct(a: int, b: int): int {
    var p: int := PartialProduct(Abs(a), Abs(b), 16);
    if (a < 0) != (b < 0) then -p else p
  }

  /** `_shift_add_multiply_full`. */
  method MultiplyFull(a: int, b: int) returns (product: int)
    ensures product == FullProduct(a, b)
  {
    hide Power2, PartialProduct;
    var neg := (a < 0) != (b < 0);
    var acc: int := ShiftAdd(Abs(a), Abs(b), 16);
    product := if neg then -acc else acc;
  }

  lemma Power2Of16()
    ensures Power2(16) == 65536
  {
    assert Power2(4) == 16;
    assert Power2(8) == 256;
    assert Power2(12) == 4096;
  }

  /** The full product is exact exactly for 16-bit magnitudes, and for zero. */
  lemma FullProductIff(a: int, b: int)
    ensures FullProduct(a, b) == a * b <==> a == 0 || Abs(b) < 65536
  {
    hide Power2;
    Power2Of16();
    SignOfProduct(a, b);
    var m := Abs(b);
    if m < 65536 {
      PartialProductWhole(Abs(a), m, 16);
    } else if a != 0 {
      LargerProduct(Abs(a), m % 65536, m);
    }
  }

  lemma LargerProduct(a: nat, b: nat, c: nat)
    requires a > 0 && b < c
    ensures a * b < a * c
  {
  }

  // ------------------------------------------------------------------------------------------
  // Multiplication with truncation toward zero
  // ------------------------------------------------------------------------------------------

  /** Division that rounds toward zero. */
  function Truncate(x: int, d: int): int
    requires d > 0
  {
    if x >= 0 then x / d else -(-x / d)
  }

  datatype Fixed = Fixed(format: Format, raw: int)

  predicate Valid(x: Fixed) {
    Usable(x.format) && InRange(x.format, x.raw)
  }

  predicate SameFormat(a: Fixed, b: Fixed) {
    a.format.intBits == b.format.intBits && a.format.fracBits == b.format.fracBits
  }

  datatype Error = FormatMismatch | LengthMismatch | EmptyArrays

  function Make(f: Format, raw: int): (x: Fixed)
    requires Usable(f)
    ensures Valid(x) && x.format == f
  {
    ClampIs(f, raw);
    Fixed(f, Clamp(f, raw))
  }

  function Add(a: Fixed, b: Fixed): Result<Fixed, Error>
    requires Usable(a.format)
  {
    if SameFormat(a, b) then Ok(Make(a.format, a.raw + b.raw)) else Err(FormatMismatch)
  }

  function Sub(a: Fixed, b: Fixed): Result<Fixed, Error>
    requires Usable(a.format)
  {
    if SameFormat(a, b) then Ok(Make(a.format, a.raw - b.raw)) else Err(FormatMismatch)
  }

  /** Whole turns do not change what is left after wrapping. */
  lemma WrapTurns(width: nat, x: int, k: int)
    requires width >= 1
    ensures Wrap(width, x - k * Power2(width)) == Wrap(width, x)
  {
    hide Power2;
    var p := Power2(width);
    QuotientRemainder(x, p);
    Distribute(x / p - k, k, p);
    UniqueQuotient(x - k * p, p, x / p - k, x % p);
  }

  /** Wrapping takes away whole turns. */
  lemma WrapTakes(width: nat, x: int)
    requires width >= 1
    ensures x - Wrap(width, x) == (x - Wrap(width, x)) / Power2(width) * Power2(width)
  {
    hide Power2, Wrap;
    WrapIs(width, x);
    QuotientRemainder(x - Wrap(width, x), Power2(width));
  }

  /** Subtracting what was added gives the number back exactly if the sum was not saturated. */
  lemma SubUndoesAddIff(a: Fixed, b: Fixed)
    requires Valid(a) && Valid(b) && SameFormat(a, b)
    ensures var sum := Make(a.format, a.raw + b.raw);
            && Add(a, b) == Ok(sum)
            && (Sub(sum, b) == Ok(a) <==> !a.format.saturate || InRange(a.format, a.raw + b.raw))
  {
    hide Wrap, Power2;
    var f := a.format;
    var sum := Clamp(f, a.raw + b.raw);
    ClampIs(f, a.raw + b.raw);
    ClampIs(f, sum - b.raw);
    if !f.saturate {
      var k := (a.raw + b.raw - sum) / Power2(f.Width());
      WrapTakes(f.Width(), a.raw + b.raw);
      WrapTurns(f.Width(), a.raw, k);
      WrapIs(f.Width(), a.raw);
      assert sum - b.raw == a.raw - k * Power2(f.Width());
    }
  }

  /** The product, truncated toward zero and clamped. */
  function Product(a: Fixed, b: Fixed): Fixed
    requires Usable(a.format)
  {
    Make(a.format, Truncate(a.raw * b.raw, Power2(a.format.fracBits)))
  }

  lemma {:induction false} Power2Add(m: nat, n: nat)
    ensures Power2(m + n) == Power2(m) * Power2(n)
  {
    if m > 0 {
      Power2Add(m - 1, n);
    }
  }

  lemma {:induction false} Power2Grows(m: nat, n: nat)
    requires m <= n
    ensures Power2(m) <= Power2(n) && (m < n ==> Power2(m) < Power2(n))
  {
    if m < n {
      Power2Grows(m, n - 1);
    }
  }

  lemma MagnitudeFits(x: Fixed)
    requires Valid(x)
    ensures Abs(x.raw) <= Power2(x.format.Width() - 1) < Power2(x.format.Width())
  {
  }

  lemma TimesMonotone(a: nat, b: nat, c: nat, d: nat)
    requires a <= c && b <= d
    ensures a * b <= c * d
  {
    assert a * b <= c * b <= c * d;
  }

  /** The mask of twice the width takes nothing from the accumulator. */
  lemma MaskKeeps(a: Fixed, b: Fixed)
    requires Valid(a) && Valid(b) && SameFormat(a, b)
    ensures 0 <= Abs(a.raw) * Abs(b.raw) < Power2(2 * a.format.Width())
  {
    hide Abs, Power2;
    var w := a.format.Width();
    MagnitudeFits(a);
    MagnitudeFits(b);
    TimesMonotone(Abs(a.raw), Abs(b.raw), Power2(w - 1), Power2(w - 1));
    Power2Add(w - 1, w - 1);
    Power2Grows(2 * w - 2, 2 * w);
  }

  /** `FixedPoint.multiply`. */
  method Multiply(a: Fixed, b: Fixed) returns (r: Result<Fixed, Error>)
    requires Valid(a) && Valid(b)
    ensures SameFormat(a, b) ==> r == Ok(Product(a, b))
    ensures !SameFormat(a, b) ==> r == Err(FormatMismatch)
  {
    hide Abs, SameFormat, InRange;
    if !SameFormat(a, b) {
      return Err(FormatMismatch);
    }
    var resultNegative := (a.raw < 0) != (b.raw < 0);
    var acc := MaskedProduct(a, b);
    var resultRaw: int := acc / Power2(a.format.fracBits);
    if resultNegative {
      resultRaw := -resultRaw;
    }
    SignedTruncation(a.raw, b.raw, Power2(a.format.fracBits));
    r := Ok(Make(a.format, resultRaw));
  }

  method MaskedProduct(a: Fixed, b: Fixed) returns (acc: nat)
    requires Valid(a) && Valid(b) && SameFormat(a, b)
    ensures acc == Abs(a.raw) * Abs(b.raw)
  {
    var aMag, bMag := Abs(a.raw), Abs(b.raw);
    MagnitudeFits(b);
    acc := ShiftAdd(aMag, bMag, a.format.Width());
    MaskKeeps(a, b);
    SmallRemainder(acc, Power2(2 * a.format.Width()));
    acc := acc % Power2(2 * a.format.Width());
  }

  lemma SignedTruncation(a: int, b: int, d: int)
    requires d > 0
    ensures Truncate(a * b, d) == if (a < 0) != (b < 0) then -(Abs(a) * Abs(b) / d) else Abs(a) * Abs(b) / d
  {
    SignOfProduct(a, b);
    NonNegative(Abs(a), Abs(b));
    if Abs(a) * Abs(b) == 0 {
      SmallRemainder(0, d);
    }
  }

  /** Truncation is the one quotient that lies between zero and the exact one and is less than one away from it. */
  lemma TruncateIff(x: int, d: int, q: int)
    requires d > 0
    ensures q == Truncate(x, d) <==> Abs(x - q * d) < d && (if x >= 0 then 0 <= q * d <= x else x <= q * d <= 0)
  {
    if x >= 0 {
      FloorIff(x, d, q);
      FloorOfNat(x, d);
    } else {
      FloorIff(-x, d, -q);
      FloorOfNat(-x, d);
      NegatedProduct(q, d);
    }
  }

  lemma FloorOfNat(x: nat, d: int)
    requires d > 0
    ensures 0 <= x / d * d <= x
  {
    QuotientRemainder(x, d);
  }

  lemma NegatedProduct(q: int, d: int)
    ensures -q * d == -(q * d)
  {
  }

  lemma FloorIff(x: int, d: int, q: int)
    requires d > 0
    ensures q == x / d <==> 0 <= x - q * d < d
  {
    QuotientRemainder(x, d);
    if 0 <= x - q * d < d {
      UniqueQuotient(x, d, q, x - q * d);
    }
  }

  // ------------------------------------------------------------------------------------------
  // The same multiplication, three times over, at Q8.8
  // ------------------------------------------------------------------------------------------

  const Q88: Format := Format(8, 8, true)

  lemma Q88Bounds()
    ensures Power2(8) == 256 && Power2(15) == 32768 && Power2(16) == 65536
    ensures MaxRaw(Q88) == 32767 && MinRaw(Q88) == -32768
  {
    Power2Of16();
    assert Power2(15) * 2 == Power2(16);
    assert Power2(4) == 16;
    Power2Add(4, 4);
  }

  /** The 16-bit pattern of a number, as an unsigned number. */
  function ToU16(x: int): int { if x < 0 then x + 65536 else x }

  function FromU16(u: nat): int { if u < 32768 then u else u - 65536 }

  /** `shift_add_multiply_golden` at its default width of 16 and 8 fraction bits. */
  method GoldenMultiply(aRaw: nat, bRaw: nat) returns (resultRaw: int, overflow: bool)
    requires aRaw < 65536 && bRaw < 65536
    ensures var a, b := Fixed(Q88, FromU16(aRaw)), Fixed(Q88, FromU16(bRaw));
            && resultRaw == ToU16(Product(a, b).raw)
            && (overflow <==> !(-32768 <= Truncate(a.raw * b.raw, 256) <= 32767))
  {
    hide Power2;
    Q88Bounds();
    var aSigned, bSigned := FromU16(aRaw), FromU16(bRaw);
    var resultSign := (aSigned < 0) != (bSigned < 0);
    var acc: int := ShiftAdd(Abs(aSigned), Abs(bSigned), 16);
    SignOfProduct(aSigned, bSigned);
    if resultSign {
      acc := -acc;
    }
    assert acc == aSigned * bSigned;
    if acc >= 0 {
      acc := acc / 256;
    } else {
      acc := -(-acc / 256);
    }
    overflow := false;
    if acc > 32767 {
      acc := 32767;
      overflow := true;
    } else if acc < -32768 {
      acc := -32768;
      overflow := true;
    }
    resultRaw := if acc < 0 then acc + 65536 else acc;
  }

  /** `q88_mul`. */
  function Q88Mul(a: int, b: int): int {
    var product := a * b;
    var shifted := if product >= 0 then product / 256 else -(-product / 256);
    Saturate(-32768, 32767, shifted)
  }

  /** `q88_mul` is the multiplication of `FixedPoint` at Q8.8. */
  lemma Q88MulIsProduct(a: int, b: int)
    ensures Q88Mul(a, b) == Product(Fixed(Q88, a), Fixed(Q88, b)).raw
  {
    hide Power2;
    Q88Bounds();
  }

  // ------------------------------------------------------------------------------------------
  // Dot products that truncate every product
  // ------------------------------------------------------------------------------------------

  predicate AllLike(f: Format, xs: seq<Fixed>) {
    forall i :: 0 <= i < |xs| ==> Valid(xs[i]) && xs[i].format == f
  }

  predicate AllValid(xs: seq<Fixed>) {
    forall i {:trigger xs[i]} :: 0 <= i < |xs| ==> Valid(xs[i])
  }

  /** The accumulator after all products. */
  function Dot(f: Format, a: seq<Fixed>, b: seq<Fixed>): (r: int)
    requires Usable(f) && |a| == |b|
  {
    if a == [] then Clamp(f, 0)
    else
      var n := |a| - 1;
      Clamp(f, Dot(f, a[..n], b[..n]) + Clamp(f, Truncate(a[n].raw * b[n].raw, Power2(f.fracBits))))
  }

  /** The exact sum of products, scaled twice. */
  function ExactDot(a: seq<Fixed>, b: seq<Fixed>): int
    requires |a| == |b|
  {
    if a == [] then 0
    else
      var n := |a| - 1;
      ExactDot(a[..n], b[..n]) + a[n].raw * b[n].raw
  }

  /** No product and no sum leaves the range of the format. */
  predicate NoSaturation(f: Format, a: seq<Fixed>, b: seq<Fixed>)
    requires Usable(f) && |a| == |b|
  {
    if a == [] then true
    else
      var n := |a| - 1;
      var product := Truncate(a[n].raw * b[n].raw, Power2(f.fracBits));
      && NoSaturation(f, a[..n], b[..n])
      && InRange(f, product) && InRange(f, Dot(f, a[..n], b[..n]) + product)
  }

  /** The accumulator after all terms, or the first error. */
  function Accumulate(acc: Fixed, a: seq<Fixed>, b: seq<Fixed>): (r: Result<Fixed, Error>)
    requires Usable(acc.format) && |a| == |b| && AllValid(a)
    ensures r.Ok? ==> r.value.format == acc.format
  {
    if a == [] then Ok(acc)
    else
      var n := |a| - 1;
      match Accumulate(acc, a[..n], b[..n])
      case Err(e) => Err(e)
      case Ok(sum) => if SameFormat(a[n], b[n]) then Add(sum, Product(a[n], b[n])) else Err(FormatMismatch)
  }

  /** `fp_dot_product`. */
  method DotProduct(a: seq<Fixed>, b: seq<Fixed>) returns (r: Result<Fixed, Error>)
    requires AllValid(a) && AllValid(b)
    ensures |a| != |b| ==> r == Err(LengthMismatch)
    ensures |a| == |b| == 0 ==> r == Err(EmptyArrays)
    ensures |a| == |b| > 0 ==> r == Accumulate(Make(a[0].format, 0), a, b)
    ensures |a| == |b| > 0 && AllLike(a[0].format, a) && AllLike(a[0].format, b) ==>
              r == Ok(Fixed(a[0].format, Dot(a[0].format, a, b)))
  {
    hide Clamp, Truncate, InRange, Product, Add, SameFormat, AllLike, Accumulate;
    if |a| != |b| {
      return Err(LengthMismatch);
    }
    if |a| == 0 {
      return Err(EmptyArrays);
    }
    assert Valid(a[0]);
    r := DotLoop(a, b);
    if AllLike(a[0].format, a) && AllLike(a[0].format, b) {
      DotIsAccumulated(a[0].format, a, b);
    }
  }

  method DotLoop(a: seq<Fixed>, b: seq<Fixed>) returns (r: Result<Fixed, Error>)
    requires AllValid(a) && AllValid(b)
    requires |a| == |b| > 0
    ensures r == Accumulate(Make(a[0].format, 0), a, b)
  {
    hide Clamp, Truncate, InRange, Product, SameFormat, Accumulate;
    ghost var start := Make(a[0].format, 0);
    var acc := Make(a[0].format, 0);
    AccumulateNothing(start);
    assert a[..0] == [] && b[..0] == [];
    for i := 0 to |a|
      invariant Accumulate(start, a[..i], b[..i]) == Ok(acc) && acc.format == start.format
    {
      AccumulateNext(start, a, b, i);
      var product := Multiply(a[i], b[i]);
      if product.Err? {
        AccumulateFails(start, a, b, i + 1);
        return Err(product.error);
      }
      var sum := Add(acc, product.value);
      if sum.Err? {
        AccumulateFails(start, a, b, i + 1);
        return Err(sum.error);
      }
      acc := sum.value;
    }
    assert a[..|a|] == a && b[..|a|] == b;
    r := Ok(acc);
  }

  lemma AccumulateNothing(acc: Fixed)
    requires Usable(acc.format)
    ensures Accumulate(acc, [], []) == Ok(acc)
  {
  }

  lemma AccumulateNext(acc: Fixed, a: seq<Fixed>, b: seq<Fixed>, i: nat)
    requires Usable(acc.format) && |a| == |b| && i < |a| && AllValid(a)
    ensures Accumulate(acc, a[..i + 1], b[..i + 1])
         == match Accumulate(acc, a[..i], b[..i])
            case Err(e) => Err(e)
            case Ok(sum) => if SameFormat(a[i], b[i]) then Add(sum, Product(a[i], b[i])) else Err(FormatMismatch)
  {
    hide Product, SameFormat, Valid, Add;
    assert a[..i + 1][..i] == a[..i] && b[..i + 1][..i] == b[..i];
  }

  /** An error stays. */
  lemma {:induction false} AccumulateFails(acc: Fixed, a: seq<Fixed>, b: seq<Fixed>, i: nat)
    requires Usable(acc.format) && |a| == |b| && i <= |a| && AllValid(a)
    requires Accumulate(acc, a[..i], b[..i]).Err?
    ensures Accumulate(acc, a, b) == Accumulate(acc, a[..i], b[..i])
    decreases |a| - i
  {
    hide Product, SameFormat, Valid, Add, Accumulate;
    if i < |a| {
      AccumulateNext(acc, a, b, i);
      AccumulateFails(acc, a, b, i + 1);
    } else {
      assert a[..i] == a && b[..i] == b;
    }
  }

  lemma {:induction false} DotIsAccumulated(f: Format, a: seq<Fixed>, b: seq<Fixed>)
    requires Usable(f) && |a| == |b| && AllLike(f, a) && AllLike(f, b)
    ensures Accumulate(Make(f, 0), a, b) == Ok(Fixed(f, Dot(f, a, b)))
  {
    hide Truncate, InRange, Clamp;
    if a != [] {
      var n := |a| - 1;
      DotIsAccumulated(f, a[..n], b[..n]);
      assert a[n].format == f && b[n].format == f;
    }
  }

  /** Without saturation a dot product of n terms is less than n units in the last place from the exact one. */
  lemma {:induction false} DotError(f: Format, a: seq<Fixed>, b: seq<Fixed>)
    requires Usable(f) && |a| == |b| && NoSaturation(f, a, b)
    ensures var d := Power2(f.fracBits);
            -(|a| * d) <= Dot(f, a, b) * d - ExactDot(a, b) <= |a| * d
    ensures a != [] ==> var d := Power2(f.fracBits);
            -(|a| * d) < Dot(f, a, b) * d - ExactDot(a, b) < |a| * d
  {
    hide Truncate, Clamp, InRange, Power2;
    var d := Power2(f.fracBits);
    if a == [] {
      ZeroInRange(f);
    } else {
      var n := |a| - 1;
      var p := a[n].raw * b[n].raw;
      var q := Truncate(p, d);
      DotError(f, a[..n], b[..n]);
      TruncateIff(p, d, q);
      ClampIs(f, q);
      ClampIs(f, Dot(f, a[..n], b[..n]) + q);
      Distribute(Dot(f, a[..n], b[..n]), q, d);
      Distribute(n, 1, d);
    }
  }

  lemma Distribute(x: int, y: int, d: int)
    ensures (x + y) * d == x * d + y * d
  {
  }

  lemma ZeroInRange(f: Format)
    requires Usable(f)
    ensures Clamp(f, 0) == 0
  {
    ClampIs(f, 0);
  }

  // ------------------------------------------------------------------------------------------
  // Matrix-vector products that truncate once
  // ------------------------------------------------------------------------------------------

  /** The accumulator over a row. */
  function RowSum(weights: seq<int>, xs: seq<int>): int
    requires |weights| <= |xs|
  {
    if weights == [] then 0
    else
      var n := |weights| - 1;
      RowSum(weights[..n], xs) + FullProduct(weights[n], xs[n])
  }

  /** The exact sum of weight times value over a row. */
  function ExactRow(weights: seq<int>, xs: seq<int>): int
    requires |weights| <= |xs|
  {
    if weights == [] then 0
    else
      var n := |weights| - 1;
      ExactRow(weights[..n], xs) + weights[n] * xs[n]
  }

  lemma {:induction false} RowSumExact(weights: seq<int>, xs: seq<int>)
    requires |weights| <= |xs| && forall i :: 0 <= i < |weights| ==> Abs(xs[i]) < 65536
    ensures RowSum(weights, xs) == ExactRow(weights, xs)
  {
    hide FullProduct, Abs;
    if weights != [] {
      var n := |weights| - 1;
      RowSumExact(weights[..n], xs);
      FullProductIff(weights[n], xs[n]);
    }
  }

  /** One result: the sum shifted right, which rounds down, and clamped. */
  function RowResult(f: Format, weights: seq<int>, xs: seq<int>): int
    requires Usable(f) && |weights| <= |xs|
  {
    Saturate(MinRaw(f), MaxRaw(f), RowSum(weights, xs) / Power2(f.fracBits))
  }

  method RowAccumulate(weights: seq<int>, xs: seq<int>, nCols: nat) returns (acc: int)
    requires nCols <= |weights| && nCols <= |xs|
    ensures acc == RowSum(weights[..nCols], xs)
  {
    hide FullProduct;
    acc := 0;
    for c := 0 to nCols
      invariant acc == RowSum(weights[..c], xs)
    {
      assert weights[..c + 1][..c] == weights[..c];
      if weights[c] != 0 {
        var product := MultiplyFull(weights[c], xs[c]);
        acc := acc + product;
      } else {
        FullProductIff(0, xs[c]);
      }
    }
  }

  /** `fp_matvec`. */
  method MatVec(matrix: seq<seq<int>>, xs: seq<int>, nRows: nat, nCols: nat, f: Format) returns (result: seq<int>)
    requires Usable(f) && f.saturate && nRows <= |matrix| && nCols <= |xs|
    requires forall r :: 0 <= r < nRows ==> nCols <= |matrix[r]|
    ensures |result| == nRows
    ensures forall r :: 0 <= r < nRows ==> result[r] == RowResult(f, matrix[r][..nCols], xs) && InRange(f, result[r])
  {
    hide Power2, RowSum, InRange, Abs;
    result := [];
    for r := 0 to nRows
      invariant |result| == r
      invariant forall k :: 0 <= k < r ==> result[k] == RowResult(f, matrix[k][..nCols], xs) && InRange(f, result[k])
    {
      var acc := RowAccumulate(matrix[r], xs, nCols);
      acc := acc / Power2(f.fracBits);
      ClampIs(f, acc);
      acc := Saturate(MinRaw(f), MaxRaw(f), acc);
      ClampIs(f, acc);
      result := result + [Make(f, acc).raw];
    }
  }

  /**
   * Of 16-bit values and without saturation, a row result is less than one unit in the last place below the
   * exact sum, however long the row is.
   */
  lemma RowError(f: Format, weights: seq<int>, xs: seq<int>)
    requires Usable(f) && |weights| <= |xs| && forall i :: 0 <= i < |weights| ==> Abs(xs[i]) < 65536
    requires InRange(f, ExactRow(weights, xs) / Power2(f.fracBits))
    ensures var d := Power2(f.fracBits);
            0 <= ExactRow(weights, xs) - RowResult(f, weights, xs) * d < d
  {
    hide RowSum, Power2, Abs;
    RowSumExact(weights, xs);
    FloorIff(RowSum(weights, xs), Power2(f.fracBits), RowResult(f, weights, xs));
  }
}
