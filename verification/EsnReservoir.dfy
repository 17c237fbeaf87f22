/**
 * The fixed-point echo state network of `scripts/aegis/esn_fixedpoint.py`, at Q4.12: an interpolated tanh and a
 * leaky integrator. Inputs, weights and the table are raw integers.
 */
module EsnReservoir {
  import opened Prelude
  import opened FixedPoint

  const Q412: Format := Format(4, 12, true)

  lemma Q412Bounds()
    ensures Power2(12) == 4096 && MaxRaw(Q412) == 32767 && MinRaw(Q412) == -32768
  {
    Power2Of16();
    assert Power2(15) * 2 == Power2(16);
    assert Power2(4) == 16;
    assert Power2(8) == 256;
  }

  // ------------------------------------------------------------------------------------------
  // tanh by a table of 256 entries and linear interpolation
  // ------------------------------------------------------------------------------------------

  const ONE: int := 4096

  /** A table that stays within one. */
  predicate BoundedTable(lut: seq<int>) {
    |lut| == 256 && forall i :: 0 <= i < 256 ==> -ONE <= lut[i] <= ONE
  }

  /** What the table of tanh values is: it never falls, and stays within one. */
  predicate TanhTable(lut: seq<int>) {
    BoundedTable(lut) && forall i, j :: 0 <= i <= j < 256 ==> lut[i] <= lut[j]
  }

  /** The cell of an input and the place in it: the table has an entry every 128 units from -16384 on. */
  function Cell(raw: int): int { (raw + 16384) / 128 }

  function Place(raw: int): int { (raw + 16384) % 128 }

  function Tanh(lut: seq<int>, raw: int): int
    requires |lut| == 256
  {
    if raw <= -16384 then -ONE
    else if raw >= 16256 then ONE
    else
      var (index, fracRaw) := (Cell(raw), Place(raw) * 32);
      Saturate(-32768, 32767, lut[index] + Truncate((lut[index + 1] - lut[index]) * fracRaw, 4096))
  }

  /** `_shift_add_multiply_interp`, of a 16-bit multiplier. */
  method MultiplyInterp(a: int, b: int, fracBits: nat) returns (r: int)
    requires Abs(b) < 65536
    ensures r == Truncate(a * b, Power2(fracBits))
  {
    hide Power2, Abs;
    Power2Of16();
    var neg := (a < 0) != (b < 0);
    var acc := ShiftAdd(Abs(a), Abs(b), 16);
    var result: int := acc / Power2(fracBits);
    SignedTruncation(a, b, Power2(fracBits));
    r := if neg then -result else result;
  }

  /** `fp_tanh_q412`. */
  method TanhQ412(lut: seq<int>, raw: int) returns (r: int)
    requires |lut| == 256
    ensures r == Tanh(lut, raw)
  {
    hide Truncate;
    if raw <= -16384 {
      return -4096;
    }
    if raw >= 16384 - 128 {
      return 4096;
    }
    var index := (raw + 16384) / 128;
    var place := (raw + 16384) - index * 128;
    assert index == Cell(raw) && place == Place(raw) && 0 <= index <= 254 && 0 <= place < 128;
    index := if index > 254 then 254 else if index < 0 then 0 else index;
    var y0, y1 := lut[index], lut[index + 1];
    var diff := y1 - y0;
    var fracRaw := place * 32;
    Q412Bounds();
    var product := MultiplyInterp(diff, fracRaw, 12);
    r := Saturate(-32768, 32767, y0 + product);
  }

  /** Part of a rise: between nothing and all of it, and growing with the part. */
  lemma PartOfRise(diff: nat, m: nat, n: nat)
    requires m <= n <= 4096
    ensures 0 <= Truncate(diff * m, 4096) <= Truncate(diff * n, 4096) <= diff
  {
    TimesMonotone(diff, m, diff, n);
    TimesMonotone(diff, n, diff, 4096);
    NonNegative(diff, m);
  }

  /** Part of a fall: between nothing and all of it. */
  lemma PartOfFall(diff: int, m: nat)
    requires diff <= 0 && m <= 4096
    ensures diff <= Truncate(diff * m, 4096) <= 0
  {
    TimesMonotone(-diff, m, -diff, 4096);
    NonNegative(-diff, m);
    NegatedProduct(diff, m);
  }

  /** Inside a cell the value lies between the two entries of the table. */
  lemma TanhInCell(lut: seq<int>, raw: int)
    requires BoundedTable(lut) && -16384 < raw < 16256
    ensures var i := Cell(raw);
            && 0 <= i < 255
            && Tanh(lut, raw) == lut[i] + Truncate((lut[i + 1] - lut[i]) * (Place(raw) * 32), 4096)
            && (lut[i] <= Tanh(lut, raw) <= lut[i + 1] || lut[i + 1] <= Tanh(lut, raw) <= lut[i])
  {
    hide Truncate;
    var i := Cell(raw);
    if lut[i] <= lut[i + 1] {
      PartOfRise(lut[i + 1] - lut[i], Place(raw) * 32, 4096);
    } else {
      PartOfFall(lut[i + 1] - lut[i], Place(raw) * 32);
    }
  }

  /** Where the table has an entry, tanh is that entry. */
  lemma TanhAtEntry(lut: seq<int>, i: nat)
    requires |lut| == 256 && 0 < i < 255 && -32768 <= lut[i] <= 32767
    ensures Tanh(lut, -16384 + 128 * i) == lut[i]
  {
    var raw := -16384 + 128 * i;
    assert Cell(raw) == i && Place(raw) == 0;
  }

  lemma TanhBounded(lut: seq<int>, raw: int)
    requires BoundedTable(lut)
    ensures -ONE <= Tanh(lut, raw) <= ONE
  {
    if -16384 < raw < 16256 {
      TanhInCell(lut, raw);
    }
  }

  /** The interpolated tanh never falls: inside cells, across their boundaries and at both ends. */
  lemma TanhMonotone(lut: seq<int>, x: int, y: int)
    requires TanhTable(lut) && x <= y
    ensures Tanh(lut, x) <= Tanh(lut, y)
  {
    hide Tanh, Truncate, Place;
    TanhBounded(lut, x);
    TanhBounded(lut, y);
    if x <= -16384 || y >= 16256 {
      TanhAtEnds(lut, x);
      TanhAtEnds(lut, y);
    } else {
      TanhInCell(lut, x);
      TanhInCell(lut, y);
      assert lut[Cell(x)] <= lut[Cell(x) + 1] && lut[Cell(y)] <= lut[Cell(y) + 1];
      if Cell(x) < Cell(y) {
        assert lut[Cell(x) + 1] <= lut[Cell(y)];
      } else {
        TanhSameCell(lut, x, y);
      }
    }
  }

  lemma TanhAtEnds(lut: seq<int>, raw: int)
    requires |lut| == 256
    ensures raw <= -16384 ==> Tanh(lut, raw) == -ONE
    ensures raw >= 16256 ==> Tanh(lut, raw) == ONE
  {
  }

  lemma TanhSameCell(lut: seq<int>, x: int, y: int)
    requires TanhTable(lut) && -16384 < x <= y < 16256 && Cell(x) >= Cell(y)
    ensures Tanh(lut, x) <= Tanh(lut, y)
  {
    hide Tanh, Truncate;
    SamePlaceOrder(x, y);
    TanhInCell(lut, x);
    TanhInCell(lut, y);
    var i := Cell(x);
    assert lut[i] <= lut[i + 1];
    PartOfRise(lut[i + 1] - lut[i], Place(x) * 32, Place(y) * 32);
  }

  lemma SamePlaceOrder(x: int, y: int)
    requires x <= y && Cell(x) >= Cell(y)
    ensures Cell(x) == Cell(y) && 0 <= Place(x) <= Place(y) < 128
  {
  }

  // ------------------------------------------------------------------------------------------
  // The leaky integrator
  // ------------------------------------------------------------------------------------------

  /** One step of the integrator before saturation. */
  function Leaky(oml: int, leak: int, x: int, t: int): int {
    (FullProduct(oml, x) + FullProduct(leak, t)) / 4096
  }

  predicate WithinOne(x: int) { -ONE <= x <= ONE }

  predicate AllWithinOne(xs: seq<int>) {
    forall i :: 0 <= i < |xs| ==> WithinOne(xs[i])
  }

  lemma ProductBound(a: int, x: int)
    requires WithinOne(x)
    ensures -(Abs(a) * ONE) <= a * x <= Abs(a) * ONE
  {
    SignOfProduct(a, x);
    TimesMonotone(Abs(a), Abs(x), Abs(a), ONE);
  }

  lemma LeakyExact(oml: int, leak: int, x: int, t: int)
    requires WithinOne(x) && WithinOne(t)
    ensures Leaky(oml, leak, x, t) == (oml * x + leak * t) / 4096
  {
    FullProductIff(oml, x);
    FullProductIff(leak, t);
  }

  /**
   * With nonnegative weights that add up to one, the integrator moves from the old state towards the value of tanh,
   * not at all without leak and all the way with full leak.
   */
  lemma LeakyBetween(oml: int, leak: int, x: int, t: int)
    requires oml >= 0 && leak >= 0 && oml + leak == ONE && WithinOne(x) && WithinOne(t)
    ensures x <= Leaky(oml, leak, x, t) <= t || t <= Leaky(oml, leak, x, t) <= x
    ensures leak == 0 ==> Leaky(oml, leak, x, t) == x
    ensures leak == ONE ==> Leaky(oml, leak, x, t) == t
  {
    hide Leaky;
    LeakyExact(oml, leak, x, t);
    assert oml * x + leak * t == 4096 * x + leak * (t - x);
    if x <= t {
      NonNegative(leak, t - x);
      TimesMonotone(leak, t - x, 4096, t - x);
    } else {
      NonNegative(leak, x - t);
      TimesMonotone(leak, x - t, 4096, x - t);
      assert leak * (t - x) == -(leak * (x - t));
    }
  }

  lemma LeakyBounded(oml: int, leak: int, x: int, t: int)
    requires Abs(oml) + Abs(leak) <= ONE && WithinOne(x) && WithinOne(t)
    ensures WithinOne(Leaky(oml, leak, x, t))
  {
    hide Abs, Leaky;
    LeakyExact(oml, leak, x, t);
    ProductBound(oml, x);
    ProductBound(leak, t);
  }

  /**
   * The integrator keeps every state within one, for all states and all activations within one, exactly if the
   * magnitudes of its two weights add up to at most one.
   */
  lemma LeakyBoundedIff(oml: int, leak: int)
    ensures Abs(oml) + Abs(leak) <= ONE
       <==> forall x, t :: WithinOne(x) && WithinOne(t) ==> WithinOne(Leaky(oml, leak, x, t))
  {
    hide Leaky;
    if Abs(oml) + Abs(leak) <= ONE {
      forall x, t | WithinOne(x) && WithinOne(t)
        ensures WithinOne(Leaky(oml, leak, x, t))
      {
        LeakyBounded(oml, leak, x, t);
      }
    } else {
      var x, t := if oml < 0 then -ONE else ONE, if leak < 0 then -ONE else ONE;
      LeakyExact(oml, leak, x, t);
      assert oml * x + leak * t == (Abs(oml) + Abs(leak)) * 4096;
      assert !WithinOne(Leaky(oml, leak, x, t));
    }
  }

  /** Python's `round`: to the nearest integer, halves to the even one. */
  function RoundHalfEven(x: real): int {
    var n := x.Floor;
    if x - n as real < 0.5 then n
    else if x - n as real > 0.5 then n + 1
    else if n % 2 == 0 then n else n + 1
  }

  /** The nearest integer, and of two nearest ones the even one. */
  lemma RoundIff(x: real, n: int)
    ensures n == RoundHalfEven(x)
       <==> -0.5 <= x - n as real <= 0.5 && (x - n as real == 0.5 || x - n as real == -0.5 ==> n % 2 == 0)
  {
    assert x.Floor as real <= x < x.Floor as real + 1.0;
  }

  lemma RoundMirrored(x: real)
    ensures RoundHalfEven(4096.0 - x) == 4096 - RoundHalfEven(x)
  {
    var y := 4096.0 - x;
    assert x.Floor as real <= x < x.Floor as real + 1.0;
    assert y.Floor as real <= y < y.Floor as real + 1.0;
    if x == x.Floor as real {
      assert y.Floor == 4096 - x.Floor;
    } else {
      assert y.Floor == 4095 - x.Floor;
    }
  }

  lemma RoundNear(x: real, y: real)
    requires x - 0.25 <= y <= x + 0.25
    ensures RoundHalfEven(x) - 1 <= RoundHalfEven(y) <= RoundHalfEven(x) + 1
  {
    assert x.Floor as real <= x < x.Floor as real + 1.0;
    assert y.Floor as real <= y < y.Floor as real + 1.0;
  }

  /** How far a double between -1 and 1 may be from the exact difference it is computed as: 2^-54. */
  const HALF_ULP: real := 1.0 / 18014398509481984.0

  /**
   * The two weights that the network computes from its leak rate and its rounded complement `oml`. They add up to one
   * exactly if the leak rate and what `oml` leaves of one round to the same weight, and otherwise to one unit more or
   * less; they do add up if the leak rate is not within 2^-42 units of the middle between two weights.
   */
  lemma LeakWeightsSumIff(leak: real, oml: real)
    requires 0.0 <= leak <= 1.0 && -HALF_ULP <= oml - (1.0 - leak) <= HALF_ULP
    ensures var l, o := RoundHalfEven(leak * 4096.0), RoundHalfEven(oml * 4096.0);
            && l >= 0 && o >= 0 && ONE - 1 <= l + o <= ONE + 1
            && (l + o == ONE <==> l == RoundHalfEven((1.0 - oml) * 4096.0))
    ensures var x := leak * 4096.0;
            var middle := x.Floor as real + 0.5;
            x < middle - 4096.0 * HALF_ULP || x > middle + 4096.0 * HALF_ULP ==>
              RoundHalfEven(x) + RoundHalfEven(oml * 4096.0) == ONE
  {
    var x, z := leak * 4096.0, (1.0 - oml) * 4096.0;
    assert oml * 4096.0 == 4096.0 - z;
    assert x - 4096.0 * HALF_ULP <= z <= x + 4096.0 * HALF_ULP;
    RoundMirrored(z);
    RoundNear(x, z);
    assert x.Floor as real <= x < x.Floor as real + 1.0;
    assert z.Floor as real <= z < z.Floor as real + 1.0;
  }

  /** With an exact complement they always add up to one. */
  lemma LeakWeightsSum(leak: real)
    requires 0.0 <= leak <= 1.0
    ensures var (l, o) := (RoundHalfEven(leak * 4096.0), RoundHalfEven((1.0 - leak) * 4096.0));
            l >= 0 && o >= 0 && l + o == ONE
  {
    LeakWeightsSumIff(leak, 1.0 - leak);
  }

  /** A leak rate, and its complement as a double, for which they do not, and a neuron that leaves the range. */
  lemma LeakWeightsExceed()
    ensures var leak, oml := (1.0 + 1.0 / 4503599627370496.0) / 8192.0, 1.0 - 1.0 / 8192.0;
            var l, o := RoundHalfEven(leak * 4096.0), RoundHalfEven(oml * 4096.0);
            && -HALF_ULP <= oml - (1.0 - leak) <= HALF_ULP
            && l == 1 && o == 4096 && Leaky(o, l, 4096, 4096) == 4097
  {
    var leak, oml := (1.0 + 1.0 / 4503599627370496.0) / 8192.0, 1.0 - 1.0 / 8192.0;
    assert (leak * 4096.0).Floor == 0 && (oml * 4096.0).Floor == 4095;
    LeakyExact(4096, 1, 4096, 4096);
  }

  // ------------------------------------------------------------------------------------------
  // One step of the network, on values
  // ------------------------------------------------------------------------------------------

  datatype Network = Network(
    n: nat, nInputs: nat, wIn: seq<seq<int>>, w: seq<seq<int>>, oml: int, leak: int, lut: seq<int>)

  predicate Shaped(p: Network) {
    && |p.lut| == 256 && |p.wIn| == p.n && |p.w| == p.n
    && (forall i :: 0 <= i < p.n ==> |p.wIn[i]| == p.nInputs)
    && (forall i :: 0 <= i < p.n ==> |p.w[i]| == p.n)
  }

  /** The sum of both matrix products, clamped. */
  function Pre(p: Network, u: seq<int>, state: seq<int>, i: nat): int
    requires Shaped(p) && |u| == p.nInputs && |state| == p.n && i < p.n
  {
    Clamp(Q412, RowResult(Q412, p.wIn[i][..p.nInputs], u) + RowResult(Q412, p.w[i][..p.n], state))
  }

  function Unclamped(p: Network, u: seq<int>, state: seq<int>, i: nat): int
    requires Shaped(p) && |u| == p.nInputs && |state| == p.n && i < p.n
  {
    Leaky(p.oml, p.leak, state[i], Tanh(p.lut, Pre(p, u, state, i)))
  }

  function NewRaw(p: Network, u: seq<int>, state: seq<int>, i: nat): int
    requires Shaped(p) && |u| == p.nInputs && |state| == p.n && i < p.n
  {
    Saturate(-32768, 32767, Unclamped(p, u, state, i))
  }

  /** A new state at either end of the range while the sum before tanh is above 0.1 in magnitude. */
  predicate Overflows(p: Network, u: seq<int>, state: seq<int>, i: nat)
    requires Shaped(p) && |u| == p.nInputs && |state| == p.n && i < p.n
  {
    (NewRaw(p, u, state, i) == 32767 || NewRaw(p, u, state, i) == -32768) && Abs(Pre(p, u, state, i)) >= 410
  }

  function NextState(p: Network, u: seq<int>, state: seq<int>): (s: seq<int>)
    requires Shaped(p) && |u| == p.nInputs && |state| == p.n
    ensures |s| == p.n
  {
    seq(p.n, i requires 0 <= i < p.n => NewRaw(p, u, state, i))
  }

  /** How many of the first `k` neurons overflow. */
  function OverflowsAmong(p: Network, u: seq<int>, state: seq<int>, k: nat): nat
    requires Shaped(p) && |u| == p.nInputs && |state| == p.n && k <= p.n
  {
    if k == 0 then 0 else OverflowsAmong(p, u, state, k - 1) + if Overflows(p, u, state, k - 1) then 1 else 0
  }

  // ------------------------------------------------------------------------------------------
  // What one step computes
  // ------------------------------------------------------------------------------------------

  predicate Below16Bits(xs: seq<int>) {
    forall i :: 0 <= i < |xs| ==> Abs(xs[i]) < 65536
  }

  /** A row of the exact matrix product, in units of the format, rounded down. */
  function RowFloor(row: seq<int>, xs: seq<int>): int
    requires |row| <= |xs|
  {
    ExactRow(row, xs) / 4096
  }

  predicate InQ412(x: int) { -32768 <= x <= 32767 }

  /** The input row and the recurrent row, each cut to the format, and their sum cut again. */
  lemma PreIs(p: Network, u: seq<int>, state: seq<int>, i: nat)
    requires Shaped(p) && |u| == p.nInputs && |state| == p.n && i < p.n && Below16Bits(u) && Below16Bits(state)
    ensures Pre(p, u, state, i)
         == Saturate(-32768, 32767,
                     Saturate(-32768, 32767, RowFloor(p.wIn[i], u)) + Saturate(-32768, 32767, RowFloor(p.w[i], state)))
  {
    hide RowSum, Power2, Abs, ExactRow;
    Q412Bounds();
    RowSumExact(p.wIn[i], u);
    RowSumExact(p.w[i], state);
    assert p.wIn[i][..p.nInputs] == p.wIn[i] && p.w[i][..p.n] == p.w[i];
  }

  /** Where nothing is cut, the sum is less than two units below the exact one of inputs and states. */
  lemma PreError(p: Network, u: seq<int>, state: seq<int>, i: nat)
    requires Shaped(p) && |u| == p.nInputs && |state| == p.n && i < p.n && Below16Bits(u) && Below16Bits(state)
    requires InQ412(RowFloor(p.wIn[i], u)) && InQ412(RowFloor(p.w[i], state))
    requires InQ412(RowFloor(p.wIn[i], u) + RowFloor(p.w[i], state))
    ensures 0 <= ExactRow(p.wIn[i], u) + ExactRow(p.w[i], state) - 4096 * Pre(p, u, state, i) < 2 * 4096
  {
    hide Pre, ExactRow;
    PreIs(p, u, state, i);
  }

  /** An overflow is a state at either end of the range while the sum before tanh is above 0.1 in magnitude. */
  lemma OverflowIff(p: Network, u: seq<int>, state: seq<int>, i: nat)
    requires Shaped(p) && |u| == p.nInputs && |state| == p.n && i < p.n
    ensures Overflows(p, u, state, i)
       <==> NextState(p, u, state)[i] in {-32768, 32767} && Abs(Pre(p, u, state, i)) as real / 4096.0 > 0.1
  {
    hide Pre, Unclamped;
  }

  /** The new state lies between the old one and the value of tanh. */
  lemma NeuronBetween(p: Network, u: seq<int>, state: seq<int>, i: nat)
    requires Shaped(p) && |u| == p.nInputs && |state| == p.n && i < p.n && AllWithinOne(state)
    requires BoundedTable(p.lut) && p.oml >= 0 && p.leak >= 0 && p.oml + p.leak == ONE
    ensures var x, t, s := state[i], Tanh(p.lut, Pre(p, u, state, i)), NextState(p, u, state)[i];
            && (x <= s <= t || t <= s <= x) && (p.leak == 0 ==> s == x) && (p.leak == ONE ==> s == t)
  {
    hide Leaky, Tanh, Pre, BoundedTable;
    TanhBounded(p.lut, Pre(p, u, state, i));
    LeakyBetween(p.oml, p.leak, state[i], Tanh(p.lut, Pre(p, u, state, i)));
  }

  // ------------------------------------------------------------------------------------------
  // Every run stays within one
  // ------------------------------------------------------------------------------------------

  /** A network whose integrator weights and table keep its states within one. */
  predicate Contractive(p: Network) {
    Shaped(p) && BoundedTable(p.lut) && Abs(p.oml) + Abs(p.leak) <= ONE
  }

  /** Saturation never changes anything, and nothing counts as an overflow. */
  lemma NeuronStaysWithinOne(p: Network, u: seq<int>, state: seq<int>, i: nat)
    requires Contractive(p) && |u| == p.nInputs && |state| == p.n && i < p.n && AllWithinOne(state)
    ensures WithinOne(NewRaw(p, u, state, i)) && NewRaw(p, u, state, i) == Unclamped(p, u, state, i)
    ensures !Overflows(p, u, state, i)
  {
    hide Leaky, Tanh, Pre, Abs, BoundedTable;
    TanhBounded(p.lut, Pre(p, u, state, i));
    LeakyBounded(p.oml, p.leak, state[i], Tanh(p.lut, Pre(p, u, state, i)));
  }

  lemma {:induction false} NoOverflow(p: Network, u: seq<int>, state: seq<int>, k: nat)
    requires Contractive(p) && |u| == p.nInputs && |state| == p.n && k <= p.n && AllWithinOne(state)
    ensures OverflowsAmong(p, u, state, k) == 0
  {
    hide Overflows;
    if k > 0 {
      NoOverflow(p, u, state, k - 1);
      NeuronStaysWithinOne(p, u, state, k - 1);
    }
  }

  datatype Run = Run(state: seq<int>, overflows: nat)

  predicate Fits(p: Network, inputs: seq<seq<int>>) {
    forall k :: 0 <= k < |inputs| ==> |inputs[k]| == p.nInputs
  }

  /** State and overflow count after a run over inputs, from the zero state. */
  function After(p: Network, inputs: seq<seq<int>>): (r: Run)
    requires Shaped(p) && Fits(p, inputs)
    ensures |r.state| == p.n
  {
    if inputs == [] then Run(seq(p.n, _ => 0), 0)
    else
      var before, u := After(p, inputs[..|inputs| - 1]), inputs[|inputs| - 1];
      Run(NextState(p, u, before.state), before.overflows + OverflowsAmong(p, u, before.state, p.n))
  }

  /** In every run, for any matrices and any inputs, all states stay within one and nothing overflows. */
  lemma {:induction false} EveryRunStaysWithinOne(p: Network, inputs: seq<seq<int>>)
    requires Contractive(p) && Fits(p, inputs)
    ensures AllWithinOne(After(p, inputs).state) && After(p, inputs).overflows == 0
  {
    hide NewRaw, OverflowsAmong, BoundedTable, Abs;
    if inputs != [] {
      var before, u := After(p, inputs[..|inputs| - 1]), inputs[|inputs| - 1];
      EveryRunStaysWithinOne(p, inputs[..|inputs| - 1]);
      NoOverflow(p, u, before.state, p.n);
      forall i: nat | i < p.n
        ensures WithinOne(NewRaw(p, u, before.state, i))
      {
        NeuronStaysWithinOne(p, u, before.state, i);
      }
    }
  }

  /** One neuron with unit weights and full leak. */
  function Echo(lut: seq<int>): Network {
    Network(1, 1, [[4096]], [[4096]], 0, 4096, lut)
  }

  /** It answers with tanh of its input, and then with tanh of the next input and that answer: the state comes back. */
  lemma EchoRun(lut: seq<int>, a: int, b: int)
    requires BoundedTable(lut) && InQ412(a) && InQ412(b) && InQ412(b + Tanh(lut, a))
    ensures After(Echo(lut), [[a]]).state == [Tanh(lut, a)]
    ensures After(Echo(lut), [[a], [b]]).state == [Tanh(lut, b + Tanh(lut, a))]
  {
    hide Tanh, Pre, OverflowsAmong, NextState;
    var p := Echo(lut);
    TanhBounded(lut, a);
    TanhBounded(lut, b + Tanh(lut, a));
    EchoStep(lut, a, 0);
    EchoStep(lut, b, Tanh(lut, a));
    var zero: seq<int> := seq(1, _ => 0);
    assert zero == [0];
    assert [[a]][..0] == [] && [[a], [b]][..1] == [[a]];
    assert After(p, []).state == [0];
    assert After(p, [[a]]).state == NextState(p, [a], [0]);
  }

  lemma EchoStep(lut: seq<int>, u: int, x: int)
    requires BoundedTable(lut) && InQ412(u) && WithinOne(x) && InQ412(u + x)
    ensures NextState(Echo(lut), [u], [x]) == [Tanh(lut, u + x)]
  {
    hide Tanh, Pre, Leaky;
    var p := Echo(lut);
    OneWeight(u);
    OneWeight(x);
    PreIs(p, [u], [x], 0);
    NeuronBetween(p, [u], [x], 0);
  }

  lemma OneWeight(x: int)
    ensures RowFloor([4096], [x]) == x
  {
    assert ExactRow([4096][..0], [x]) == 0;
  }

  // ------------------------------------------------------------------------------------------
  // The network, in place
  // ------------------------------------------------------------------------------------------

  class FixedPointEsn {
    const p: Network
    var state: seq<int>
    var overflowCount: nat

    ghost predicate Valid()
      reads this
    {
      Shaped(p) && |state| == p.n
    }

    constructor (p: Network)
      requires Shaped(p)
      ensures Valid() && this.p == p && Run(state, overflowCount) == After(p, [])
    {
      this.p := p;
      state, overflowCount := seq(p.n, _ => 0), 0;
    }

    method ResetState()
      requires Valid()
      modifies this`state
      ensures Valid() && state == After(p, []).state
    {
      state := seq(p.n, _ => 0);
    }

    /** The inputs are already converted to raw numbers. */
    method UpdateState(u: seq<int>)
      requires Valid() && |u| == p.nInputs
      modifies this
      ensures Valid() && state == NextState(p, u, old(state))
      ensures overflowCount == old(overflowCount) + OverflowsAmong(p, u, old(state), p.n)
    {
      hide RowResult, Tanh, FullProduct, OverflowsAmong;
      var winU := MatVec(p.wIn, u, p.n, p.nInputs, Q412);
      var wX := MatVec(p.w, state, p.n, p.n, Q412);
      var newState: seq<int> := [];
      NoNeurons(p, u, state);
      for i := 0 to p.n
        invariant state == old(state) && |newState| == i
        invariant forall k: nat | k < i :: newState[k] == NewRaw(p, u, state, k)
        invariant overflowCount == old(overflowCount) + OverflowsAmong(p, u, state, i)
      {
        var newRaw, overflow := UpdateNeuron(u, winU[i], wX[i], i);
        OneMoreNeuron(p, u, state, i);
        if overflow {
          overflowCount := overflowCount + 1;
        }
        newState := newState + [newRaw];
      }
      state := newState;
    }

    method UpdateNeuron(ghost u: seq<int>, winU: int, wX: int, i: nat) returns (newRaw: int, overflow: bool)
      requires Valid() && |u| == p.nInputs && i < p.n
      requires winU == RowResult(Q412, p.wIn[i][..p.nInputs], u) && wX == RowResult(Q412, p.w[i][..p.n], state)
      ensures newRaw == NewRaw(p, u, state, i) && (overflow <==> Overflows(p, u, state, i))
    {
      hide RowResult, Tanh, FullProduct, Clamp;
      var pre := Make(Q412, winU + wX).raw;
      var activated := TanhQ412(p.lut, pre);
      var prod1 := MultiplyFull(p.oml, state[i]);
      var prod2 := MultiplyFull(p.leak, activated);
      newRaw := Saturate(-32768, 32767, (prod1 + prod2) / 4096);
      Q412Bounds();
      ClampIs(Q412, newRaw);
      newRaw := Make(Q412, newRaw).raw;
      overflow := (newRaw == 32767 || newRaw == -32768) && Abs(pre) >= 410;
    }
  }

  lemma NoNeurons(p: Network, u: seq<int>, state: seq<int>)
    requires Shaped(p) && |u| == p.nInputs && |state| == p.n
    ensures OverflowsAmong(p, u, state, 0) == 0
  {
  }

  lemma OneMoreNeuron(p: Network, u: seq<int>, state: seq<int>, i: nat)
    requires Shaped(p) && |u| == p.nInputs && |state| == p.n && i < p.n
    ensures OverflowsAmong(p, u, state, i + 1)
         == OverflowsAmong(p, u, state, i) + if Overflows(p, u, state, i) then 1 else 0
  {
  }
}
