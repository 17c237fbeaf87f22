/**
 * The sparse reservoir of `scripts/aegis/generate_esn_weights.py`, at Q8.8: the weights are kept in compressed
 * rows, and the reference run over them is the run over the dense matrix.
 */
module SparseReservoir {
  import opened Prelude
  import opened FixedPoint

  // ------------------------------------------------------------------------------------------
  // Compressed rows
  // ------------------------------------------------------------------------------------------

  /** The columns of the nonzero weights of a row. */
  function Columns(row: seq<int>): (c: seq<nat>)
    ensures forall k :: 0 <= k < |c| ==> c[k] < |row|
  {
    if row == [] then []
    else
      var n := |row| - 1;
      Columns(row[..n]) + if row[n] != 0 then [n] else []
  }

  /** The nonzero weights of a row. */
  function Nonzeros(row: seq<int>): (v: seq<int>)
    ensures |v| == |Columns(row)|
  {
    if row == [] then []
    else
      var n := |row| - 1;
      Nonzeros(row[..n]) + if row[n] != 0 then [row[n]] else []
  }

  /** The columns go up, they are those of the nonzero weights, and each comes with its weight. */
  lemma {:induction false} ColumnsAre(row: seq<int>)
    ensures var c := Columns(row);
            && (forall k, l :: 0 <= k < l < |c| ==> c[k] < c[l])
            && (forall j: nat :: j < |row| ==> (j in c <==> row[j] != 0))
            && (forall k :: 0 <= k < |c| ==> Nonzeros(row)[k] == row[c[k]])
  {
    if row != [] {
      ColumnsAre(row[..|row| - 1]);
    }
  }

  datatype Csr = Csr(rowPtr: seq<nat>, colIdx: seq<nat>, values: seq<int>)

  /** The stretch between two row pointers holds the nonzero weights of row `i`. */
  predicate RowHeld(m: Csr, row: seq<int>, i: nat)
    requires i + 1 < |m.rowPtr| && |m.colIdx| == |m.values|
  {
    var lo, hi := m.rowPtr[i], m.rowPtr[i + 1];
    lo <= hi <= |m.values| && m.colIdx[lo..hi] == Columns(row) && m.values[lo..hi] == Nonzeros(row)
  }

  /** The three arrays hold the nonzero weights of every row, row after row. */
  predicate Holds(m: Csr, w: seq<seq<int>>) {
    && |m.rowPtr| == |w| + 1 && m.rowPtr[0] == 0 && m.rowPtr[|w|] == |m.colIdx| == |m.values|
    && forall i: nat :: i < |w| ==> RowHeld(m, w[i], i)
  }

  /** The loops of `generate_weights` that build the arrays. */
  method BuildCsr(w: seq<seq<int>>) returns (m: Csr)
    ensures Holds(m, w)
  {
    m := Csr([0], [], []);
    for i := 0 to |w|
      invariant Holds(m, w[..i])
    {
      m := AppendRow(m, w[..i], w[i]);
      assert w[..i + 1] == w[..i] + [w[i]];
    }
    assert w[..|w|] == w;
  }

  method AppendRow(m: Csr, ghost w: seq<seq<int>>, row: seq<int>) returns (r: Csr)
    requires Holds(m, w)
    ensures Holds(r, w + [row])
  {
    hide Columns, Nonzeros;
    var colIdx, values := m.colIdx, m.values;
    EmptyRow();
    for j := 0 to |row|
      invariant colIdx == m.colIdx + Columns(row[..j]) && values == m.values + Nonzeros(row[..j])
    {
      NextColumn(row, j);
      if row[j] != 0 {
        colIdx := colIdx + [j];
        values := values + [row[j]];
      }
    }
    assert row[..|row|] == row;
    r := Csr(m.rowPtr + [|colIdx|], colIdx, values);
    RowAppended(m, w, row);
  }

  lemma EmptyRow()
    ensures Columns([]) == [] && Nonzeros([]) == []
  {
  }

  lemma NextColumn(row: seq<int>, j: nat)
    requires j < |row|
    ensures Columns(row[..j + 1]) == Columns(row[..j]) + if row[j] != 0 then [j] else []
    ensures Nonzeros(row[..j + 1]) == Nonzeros(row[..j]) + if row[j] != 0 then [row[j]] else []
  {
    assert row[..j + 1][..j] == row[..j];
  }

  lemma RowAppended(m: Csr, w: seq<seq<int>>, row: seq<int>)
    requires Holds(m, w)
    ensures var colIdx, values := m.colIdx + Columns(row), m.values + Nonzeros(row);
            Holds(Csr(m.rowPtr + [|colIdx|], colIdx, values), w + [row])
  {
    hide Columns, Nonzeros, RowHeld;
    var colIdx, values := m.colIdx + Columns(row), m.values + Nonzeros(row);
    var r := Csr(m.rowPtr + [|colIdx|], colIdx, values);
    LastRowHeld(m, w, row);
    forall i: nat | i < |w| + 1
      ensures RowHeld(r, (w + [row])[i], i)
    {
      if i < |w| {
        assert RowHeld(m, w[i], i);
        EarlierRowHeld(m, w[i], i, Columns(row), Nonzeros(row));
      }
    }
  }

  lemma LastRowHeld(m: Csr, w: seq<seq<int>>, row: seq<int>)
    requires Holds(m, w)
    ensures var colIdx, values := m.colIdx + Columns(row), m.values + Nonzeros(row);
            RowHeld(Csr(m.rowPtr + [|colIdx|], colIdx, values), row, |w|)
  {
    hide Columns, Nonzeros;
  }

  lemma EarlierRowHeld(m: Csr, row: seq<int>, i: nat, cols: seq<nat>, vals: seq<int>)
    requires i + 1 < |m.rowPtr| && |m.colIdx| == |m.values| && |cols| == |vals| && RowHeld(m, row, i)
    ensures RowHeld(Csr(m.rowPtr + [|m.colIdx + cols|], m.colIdx + cols, m.values + vals), row, i)
  {
    hide Columns, Nonzeros;
    var lo, hi := m.rowPtr[i], m.rowPtr[i + 1];
    assert (m.colIdx + cols)[lo..hi] == m.colIdx[lo..hi] && (m.values + vals)[lo..hi] == m.values[lo..hi];
  }

  // ------------------------------------------------------------------------------------------
  // A sparse row gives the dense sum
  // ------------------------------------------------------------------------------------------

  function DenseSum(row: seq<int>, state: seq<int>): int
    requires |row| <= |state|
  {
    if row == [] then 0
    else
      var n := |row| - 1;
      DenseSum(row[..n], state) + row[n] * state[n]
  }

  function SparseSum(cols: seq<nat>, values: seq<int>, state: seq<int>): int
    requires |cols| == |values| && forall k :: 0 <= k < |cols| ==> cols[k] < |state|
  {
    if cols == [] then 0
    else
      var n := |cols| - 1;
      SparseSum(cols[..n], values[..n], state) + values[n] * state[cols[n]]
  }

  lemma SparseSnoc(cols: seq<nat>, values: seq<int>, state: seq<int>, c: nat, v: int)
    requires |cols| == |values| && (forall k :: 0 <= k < |cols| ==> cols[k] < |state|) && c < |state|
    ensures SparseSum(cols + [c], values + [v], state) == SparseSum(cols, values, state) + v * state[c]
  {
    assert (cols + [c])[..|cols + [c]| - 1] == cols;
    assert (values + [v])[..|values + [v]| - 1] == values;
  }

  lemma {:induction false} SparseIsDense(row: seq<int>, state: seq<int>)
    requires |row| <= |state|
    ensures SparseSum(Columns(row), Nonzeros(row), state) == DenseSum(row, state)
  {
    hide SparseSum;
    if row == [] {
      assert Columns(row) == [] && Nonzeros(row) == [];
      NothingStored(state);
    } else {
      var n := |row| - 1;
      SparseIsDense(row[..n], state);
      if row[n] != 0 {
        SparseSnoc(Columns(row[..n]), Nonzeros(row[..n]), state, n, row[n]);
      } else {
        assert Columns(row) == Columns(row[..n]) + [] == Columns(row[..n]);
        assert Nonzeros(row) == Nonzeros(row[..n]) + [] == Nonzeros(row[..n]);
      }
    }
  }

  lemma NothingStored(state: seq<int>)
    ensures SparseSum([], [], state) == 0
  {
  }

  // ------------------------------------------------------------------------------------------
  // One neuron
  // ------------------------------------------------------------------------------------------

  const ONE: int := 256

  predicate WithinOne(x: int) { -ONE <= x <= ONE }

  predicate AllWithinOne(xs: seq<int>) {
    forall i :: 0 <= i < |xs| ==> WithinOne(xs[i])
  }

  /** `tanh_q88`: a table lookup without interpolation. */
  function Tanh(lut: seq<int>, x: int): (t: int)
    requires |lut| == 256
    ensures AllWithinOne(lut) ==> WithinOne(t)
  {
    if x <= -1024 then -ONE
    else if x >= 1024 then ONE
    else lut[Saturate(0, 255, (x + 1024) / 8)]
  }

  function Clamp16(x: int): int { Saturate(-32768, 32767, x) }

  /** Every eight units between -1024 and 1024 share an entry of the table; at both ends the value is one. */
  lemma TanhIsEntry(lut: seq<int>, i: nat, r: nat)
    requires |lut| == 256 && i < 256 && r < 8
    ensures i + r > 0 ==> Tanh(lut, -1024 + 8 * i + r) == lut[i]
    ensures Tanh(lut, -1024 - 8 * i - r) == -256 && Tanh(lut, 1024 + 8 * i + r) == 256
  {
    assert (8 * i + r) / 8 == i;
  }

  lemma TanhMonotone(lut: seq<int>, x: int, y: int)
    requires |lut| == 256 && AllWithinOne(lut) && (forall i, j :: 0 <= i <= j < 256 ==> lut[i] <= lut[j]) && x <= y
    ensures Tanh(lut, x) <= Tanh(lut, y)
  {
    if x <= -1024 || y >= 1024 {
      assert WithinOne(Tanh(lut, x)) && WithinOne(Tanh(lut, y));
    } else {
      assert (x + 1024) / 8 <= (y + 1024) / 8;
    }
  }

  /** What a neuron makes of its accumulator. */
  function TanhOf(lut: seq<int>, acc: int): int
    requires |lut| == 256
  {
    Tanh(lut, Clamp16(Truncate(acc, 256)))
  }

  /** Tanh is taken of the accumulator in units of the format, less than one unit nearer to zero. */
  lemma TanhOfIs(lut: seq<int>, acc: int, q: int)
    requires |lut| == 256 && -32768 <= q <= 32767
    requires if acc >= 0 then 256 * q <= acc < 256 * q + 256 else 256 * q - 256 < acc <= 256 * q
    ensures TanhOf(lut, acc) == Tanh(lut, q)
  {
    hide Tanh;
    TruncateIff(acc, 256, q);
  }

  function Difference(lut: seq<int>, acc: int, x: int): int
    requires |lut| == 256
  {
    TanhOf(lut, acc) - x
  }

  /** The new state: a part of the difference is added, with saturation at every step. */
  function NewState(lut: seq<int>, leak: int, acc: int, x: int): int
    requires |lut| == 256
  {
    Clamp16(x + Q88Mul(leak, Clamp16(Difference(lut, acc, x))))
  }

  /** A part of a difference lies between zero and the difference. */
  lemma PartOfDifference(leak: int, diff: int)
    requires 0 <= leak <= 256
    ensures if diff >= 0 then 0 <= Truncate(leak * diff, 256) <= diff else diff <= Truncate(leak * diff, 256) <= 0
  {
    if diff >= 0 {
      TimesMonotone(leak, diff, 256, diff);
      NonNegative(leak, diff);
    } else {
      TimesMonotone(leak, -diff, 256, -diff);
      NonNegative(leak, -diff);
      assert leak * diff == -(leak * -diff);
    }
  }

  /** States within one stay within one, between the old state and the value of tanh, and no clamp does anything. */
  lemma NeuronStaysWithinOne(lut: seq<int>, leak: int, acc: int, x: int)
    requires |lut| == 256 && AllWithinOne(lut) && 0 <= leak <= 256 && WithinOne(x)
    ensures var d := Difference(lut, acc, x);
            && Clamp16(d) == d && Q88Mul(leak, d) == Truncate(leak * d, 256)
            && NewState(lut, leak, acc, x) == x + Truncate(leak * d, 256)
    ensures var s, t := NewState(lut, leak, acc, x), TanhOf(lut, acc);
            WithinOne(s) && (x <= s <= t || t <= s <= x)
  {
    hide Tanh, Truncate, AllWithinOne;
    var d := Difference(lut, acc, x);
    assert WithinOne(TanhOf(lut, acc));
    PartOfDifference(leak, d);
    Q88MulInRange(leak, d);
  }

  /** Without leak the state stays, with full leak it becomes the value of tanh. */
  lemma NeuronAtEnds(lut: seq<int>, acc: int, x: int)
    requires |lut| == 256 && AllWithinOne(lut) && WithinOne(x)
    ensures NewState(lut, 0, acc, x) == x
    ensures NewState(lut, 256, acc, x) == TanhOf(lut, acc)
  {
    hide NewState, TanhOf;
    NeuronStaysWithinOne(lut, 0, acc, x);
    NeuronStaysWithinOne(lut, 256, acc, x);
    TruncateIff(256 * Difference(lut, acc, x), 256, Difference(lut, acc, x));
  }

  lemma Q88MulInRange(a: int, b: int)
    requires -32768 <= Truncate(a * b, 256) <= 32767
    ensures Q88Mul(a, b) == Truncate(a * b, 256)
  {
  }

  // ------------------------------------------------------------------------------------------
  // Runs over the dense matrix
  // ------------------------------------------------------------------------------------------

  datatype Reservoir = Reservoir(n: nat, wIn: seq<int>, w: seq<seq<int>>, leak: int, lut: seq<int>)

  predicate Shaped(p: Reservoir) {
    |p.wIn| == p.n && |p.w| == p.n && |p.lut| == 256 && forall i :: 0 <= i < p.n ==> |p.w[i]| == p.n
  }

  function DenseAcc(p: Reservoir, input: int, state: seq<int>, i: nat): int
    requires Shaped(p) && |state| == p.n && i < p.n
  {
    p.wIn[i] * input + DenseSum(p.w[i], state)
  }

  lemma {:induction false} DenseSumIs(row: seq<int>, state: seq<int>)
    requires |row| <= |state|
    ensures DenseSum(row, state) == ExactRow(row, state)
  {
    if row != [] {
      DenseSumIs(row[..|row| - 1], state);
    }
  }

  lemma {:induction false} OneMoreFactor(a: int, row: seq<int>, b: int, xs: seq<int>)
    requires |row| <= |xs|
    ensures ExactRow([a] + row, [b] + xs) == a * b + ExactRow(row, xs)
  {
    var n := |row|;
    assert ([a] + row)[n] == if n == 0 then a else row[n - 1];
    if n == 0 {
      assert ([a] + row)[..0] == [] && [a] + row == [a];
    } else {
      OneMoreFactor(a, row[..n - 1], b, xs);
      assert ([a] + row)[..n] == [a] + row[..n - 1];
    }
  }

  /** The accumulator is the product of the row of all weights of a neuron with the input and all states. */
  lemma DenseAccIs(p: Reservoir, input: int, state: seq<int>, i: nat)
    requires Shaped(p) && |state| == p.n && i < p.n
    ensures DenseAcc(p, input, state, i) == ExactRow([p.wIn[i]] + p.w[i], [input] + state)
  {
    hide ExactRow, DenseSum;
    DenseSumIs(p.w[i], state);
    OneMoreFactor(p.wIn[i], p.w[i], input, state);
  }

  function DenseStep(p: Reservoir, input: int, state: seq<int>): (s: seq<int>)
    requires Shaped(p) && |state| == p.n
    ensures |s| == p.n
  {
    seq(p.n, i requires 0 <= i < p.n => NewState(p.lut, p.leak, DenseAcc(p, input, state, i), state[i]))
  }

  /** The states after 0, 1, 2, ... inputs, from the zero state. */
  function StateAfter(p: Reservoir, inputs: seq<int>): (s: seq<int>)
    requires Shaped(p)
    ensures |s| == p.n
  {
    if inputs == [] then seq(p.n, _ => 0)
    else DenseStep(p, inputs[|inputs| - 1], StateAfter(p, inputs[..|inputs| - 1]))
  }

  /** `to_u16`. */
  function AllToU16(state: seq<int>): (u: seq<int>)
    ensures |u| == |state|
  {
    seq(|state|, i requires 0 <= i < |state| => state[i] % 65536)
  }

  /** A state as an unsigned word: its two's complement. */
  lemma WordOfState(state: seq<int>, i: nat)
    requires i < |state| && AllWithinOne(state)
    ensures var u := AllToU16(state)[i];
            0 <= u < 65536 && state[i] == if u < 32768 then u else u - 65536
  {
    assert WithinOne(state[i]);
  }

  /** In every run, for any weights and any inputs, all states stay within one. */
  lemma {:induction false} EveryRunStaysWithinOne(p: Reservoir, inputs: seq<int>)
    requires Shaped(p) && AllWithinOne(p.lut) && 0 <= p.leak <= 256
    ensures AllWithinOne(StateAfter(p, inputs))
  {
    hide NewState, DenseAcc;
    if inputs != [] {
      var state, input := StateAfter(p, inputs[..|inputs| - 1]), inputs[|inputs| - 1];
      EveryRunStaysWithinOne(p, inputs[..|inputs| - 1]);
      forall i: nat | i < p.n
        ensures WithinOne(NewState(p.lut, p.leak, DenseAcc(p, input, state, i), state[i]))
      {
        NeuronStaysWithinOne(p.lut, p.leak, DenseAcc(p, input, state, i), state[i]);
      }
    }
  }

  // ------------------------------------------------------------------------------------------
  // The width of the accumulator
  // ------------------------------------------------------------------------------------------

  predicate Fits16(x: int) { -32768 <= x <= 32767 }

  predicate Fits32(x: int) { -0x8000_0000 <= x <= 0x7FFF_FFFF }

  predicate AllFit16(xs: seq<int>) {
    forall i :: 0 <= i < |xs| ==> Fits16(xs[i])
  }

  lemma ProductBound(a: int, b: int, m: nat, n: nat)
    requires -(m as int) <= a <= m && -(n as int) <= b <= n
    ensures -(m * n) <= a * b <= m * n
  {
    SignOfProduct(a, b);
    TimesMonotone(Abs(a), Abs(b), m, n);
  }

  lemma {:induction false} SparseBound(cols: seq<nat>, values: seq<int>, state: seq<int>)
    requires |cols| == |values| && forall k :: 0 <= k < |cols| ==> cols[k] < |state|
    requires AllFit16(values) && AllWithinOne(state)
    ensures -(|cols| * 0x80_0000) <= SparseSum(cols, values, state) <= |cols| * 0x80_0000
  {
    if cols != [] {
      var n := |cols| - 1;
      SparseBound(cols[..n], values[..n], state);
      assert Fits16(values[n]) && WithinOne(state[cols[n]]);
      ProductBound(values[n], state[cols[n]], 32768, 256);
    }
  }

  /** The accumulator after the input term and any number of stored weights, up to 127, fits a signed 32-bit word. */
  lemma AccumulatorFits(wIn: int, input: int, cols: seq<nat>, values: seq<int>, state: seq<int>)
    requires |cols| == |values| <= 127 && forall k :: 0 <= k < |cols| ==> cols[k] < |state|
    requires Fits16(wIn) && Fits16(input) && AllFit16(values) && AllWithinOne(state)
    ensures Fits32(wIn * input + SparseSum(cols, values, state))
  {
    ProductBound(wIn, input, 32768, 32768);
    SparseBound(cols, values, state);
  }

  lemma {:induction false} StoredAtMost(row: seq<int>)
    requires AllFit16(row)
    ensures |Columns(row)| <= |row| && AllFit16(Nonzeros(row))
  {
    if row != [] {
      var n := |row| - 1;
      StoredAtMost(row[..n]);
      assert Fits16(row[n]);
    }
  }

  /** In every run of up to 127 neurons, the accumulator fits after each stored weight of each row. */
  lemma EveryRunFits(p: Reservoir, inputs: seq<int>, input: int, i: nat, k: nat)
    requires Shaped(p) && AllWithinOne(p.lut) && 0 <= p.leak <= 256 && p.n <= 127
    requires i < p.n && Fits16(p.wIn[i]) && AllFit16(p.w[i]) && Fits16(input) && k <= |Columns(p.w[i])|
    ensures Fits32(p.wIn[i] * input + SparseSum(Columns(p.w[i])[..k], Nonzeros(p.w[i])[..k], StateAfter(p, inputs)))
  {
    hide Columns, Nonzeros, SparseSum, Fits16, Fits32, StateAfter;
    EveryRunStaysWithinOne(p, inputs);
    StoredAtMost(p.w[i]);
    var cols, values := Columns(p.w[i])[..k], Nonzeros(p.w[i])[..k];
    AccumulatorFits(p.wIn[i], input, cols, values, StateAfter(p, inputs));
  }

  /** In every such run, every accumulator of a step fits at its end, too. */
  lemma EveryStepFits(p: Reservoir, inputs: seq<int>, input: int, i: nat)
    requires Shaped(p) && AllWithinOne(p.lut) && 0 <= p.leak <= 256 && p.n <= 127
    requires i < p.n && Fits16(p.wIn[i]) && AllFit16(p.w[i]) && Fits16(input)
    ensures Fits32(DenseAcc(p, input, StateAfter(p, inputs), i))
  {
    hide Columns, Nonzeros, SparseSum, DenseSum, Fits16, Fits32, StateAfter;
    var cols, values := Columns(p.w[i]), Nonzeros(p.w[i]);
    EveryRunFits(p, inputs, input, i, |cols|);
    assert cols[..|cols|] == cols && values[..|cols|] == values;
    SparseIsDense(p.w[i], StateAfter(p, inputs));
  }

  /** With 128 stored weights it need not fit. */
  lemma AccumulatorOverflows()
    ensures var cols := seq(128, i requires 0 <= i < 128 => i as nat);
            var values, state := seq(128, _ => -32768), seq(128, _ => -256);
            && AllFit16(values) && AllWithinOne(state)
            && !Fits32(-32768 * -32768 + SparseSum(cols, values, state))
  {
    ConstantSum(seq(128, i requires 0 <= i < 128 => i as nat), seq(128, _ => -32768), seq(128, _ => -256));
  }

  lemma {:induction false} ConstantSum(cols: seq<nat>, values: seq<int>, state: seq<int>)
    requires |cols| == |values| && forall k :: 0 <= k < |cols| ==> cols[k] < |state|
    requires forall k :: 0 <= k < |values| ==> values[k] == -32768
    requires forall k :: 0 <= k < |state| ==> state[k] == -256
    ensures SparseSum(cols, values, state) == |cols| * 0x80_0000
  {
    if cols != [] {
      var n := |cols| - 1;
      ConstantSum(cols[..n], values[..n], state);
    }
  }

  // ------------------------------------------------------------------------------------------
  // The reference run over the compressed rows
  // ------------------------------------------------------------------------------------------

  lemma RowColumns(m: Csr, w: seq<seq<int>>, i: nat)
    requires Holds(m, w) && i < |w|
    ensures |m.rowPtr| == |w| + 1 && m.rowPtr[i] <= m.rowPtr[i + 1] <= |m.values| == |m.colIdx|
    ensures m.colIdx[m.rowPtr[i]..m.rowPtr[i + 1]] == Columns(w[i])
    ensures m.values[m.rowPtr[i]..m.rowPtr[i + 1]] == Nonzeros(w[i])
    ensures forall k :: m.rowPtr[i] <= k < m.rowPtr[i + 1] ==> m.colIdx[k] < |w[i]|
  {
    assert RowHeld(m, w[i], i);
    var lo, hi := m.rowPtr[i], m.rowPtr[i + 1];
    forall k | lo <= k < hi
      ensures m.colIdx[k] < |w[i]|
    {
      assert m.colIdx[lo..hi][k - lo] == m.colIdx[k];
    }
  }

  /** The accumulator of neuron `i`, from the stored weights of its row. */
  method RowAccumulate(m: Csr, p: Reservoir, input: int, state: seq<int>, i: nat) returns (acc: int)
    requires Shaped(p) && Holds(m, p.w) && |state| == p.n && i < p.n
    ensures acc == DenseAcc(p, input, state, i)
  {
    hide SparseSum, DenseSum, Columns, Nonzeros, Holds;
    RowColumns(m, p.w, i);
    assert m.rowPtr[i] <= m.rowPtr[i + 1];
    var lo, hi := m.rowPtr[i], m.rowPtr[i + 1];
    acc := p.wIn[i] * input;
    NothingStored(state);
    assert m.colIdx[lo..lo] == [] && m.values[lo..lo] == [];
    for ptr := lo to hi
      invariant acc == p.wIn[i] * input + SparseSum(m.colIdx[lo..ptr], m.values[lo..ptr], state)
    {
      var j := m.colIdx[ptr];
      SparseSnoc(m.colIdx[lo..ptr], m.values[lo..ptr], state, j, m.values[ptr]);
      assert m.colIdx[lo..ptr + 1] == m.colIdx[lo..ptr] + [j];
      assert m.values[lo..ptr + 1] == m.values[lo..ptr] + [m.values[ptr]];
      acc := acc + m.values[ptr] * state[j];
    }
    SparseIsDense(p.w[i], state);
  }

  method Step(m: Csr, p: Reservoir, input: int, state: seq<int>) returns (newState: seq<int>)
    requires Shaped(p) && Holds(m, p.w) && |state| == p.n
    ensures newState == DenseStep(p, input, state)
  {
    hide DenseAcc, Holds, Tanh, Truncate;
    newState := [];
    for i := 0 to p.n
      invariant |newState| == i
      invariant forall k: nat | k < i :: newState[k] == NewState(p.lut, p.leak, DenseAcc(p, input, state, k), state[k])
    {
      var acc := RowAccumulate(m, p, input, state, i);
      var tanhIn := Clamp16(Truncate(acc, 256));
      var tanhOut := Tanh(p.lut, tanhIn);
      var diff := Clamp16(tanhOut - state[i]);
      var leakTerm := Q88Mul(p.leak, diff);
      var ns := state[i] + leakTerm;
      newState := newState + [Clamp16(ns)];
    }
  }

  /** `golden_reference`, on inputs already converted to raw numbers: the run over the dense matrix. */
  method GoldenReference(m: Csr, p: Reservoir, inputs: seq<int>) returns (history: seq<seq<int>>)
    requires Shaped(p) && Holds(m, p.w)
    ensures |history| == |inputs|
    ensures forall k :: 0 <= k < |inputs| ==> history[k] == AllToU16(StateAfter(p, inputs[..k + 1]))
  {
    hide DenseStep, Holds, AllToU16;
    var state := seq(p.n, _ => 0);
    history := [];
    for k := 0 to |inputs|
      invariant |history| == k && state == StateAfter(p, inputs[..k])
      invariant forall l :: 0 <= l < k ==> history[l] == AllToU16(StateAfter(p, inputs[..l + 1]))
    {
      assert inputs[..k + 1][..k] == inputs[..k];
      state := Step(m, p, inputs[k], state);
      history := history + [AllToU16(state)];
    }
  }
}
