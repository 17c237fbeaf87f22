/**
 * Consistent Overhead Byte Stuffing as both sides of the link implement it: `hidra_net/src/cobs.rs` and
 * `callwhite_mcu/src/cobs_framing.c`. This module has the encoding as functions and what it does and does
 * not preserve; `CobsRust` and `CobsC` have the two implementations.
 */
module Cobs {
  import opened Prelude

  type Byte = n: int | 0 <= n < 256

  const FULL: nat := 254   // the longest run of data bytes that one code byte covers

  datatype DecodeError = EmptyFrame | UnexpectedZero(position: nat) | InvalidStructure

  // ------------------------------------------------------------------------------------------
  // Encoding
  // ------------------------------------------------------------------------------------------

  /** The length of the run of nonzero bytes at the front, counted up to `cap`. */
  function BlockLength(x: seq<Byte>, cap: nat): (k: nat)
    ensures k <= cap && k <= |x|
    ensures forall i :: 0 <= i < k ==> x[i] != 0
    ensures k < |x| && k < cap ==> x[k] == 0
  {
    if cap == 0 || x == [] || x[0] == 0 then 0 else 1 + BlockLength(x[1..], cap - 1)
  }

  /** What is left to encode after the block of length `k` and the zero that ended it. */
  function AfterBlock(x: seq<Byte>, k: nat): seq<Byte>
    requires k <= |x|
  {
    if k < |x| && x[k] == 0 then x[k + 1..] else x[k..]
  }

  function EncodeBlocks(x: seq<Byte>): seq<Byte>
    decreases |x|
  {
    if x == [] then []
    else
      var k := BlockLength(x, FULL);
      [k + 1] + x[..k] + EncodeBlocks(AfterBlock(x, k))
  }

  /** A last code byte if there is nothing to encode or the last byte is zero. */
  function Closing(x: seq<Byte>): seq<Byte> {
    if x == [] || x[|x| - 1] == 0 then [1] else []
  }

  function Encode(x: seq<Byte>): seq<Byte> {
    EncodeBlocks(x) + Closing(x)
  }

  // ------------------------------------------------------------------------------------------
  // Decoding
  // ------------------------------------------------------------------------------------------

  /** The first zero among positions lo, ..., hi - 1. */
  function FirstZero(s: seq<Byte>, lo: nat, hi: nat): (p: Option<nat>)
    requires lo <= hi <= |s|
    ensures p.None? <==> (forall i :: lo <= i < hi ==> s[i] != 0)
    ensures p.Some? ==> lo <= p.value < hi && s[p.value] == 0 && (forall i :: lo <= i < p.value ==> s[i] != 0)
    decreases hi - lo
  {
    if lo == hi then None else if s[lo] == 0 then Some(lo) else FirstZero(s, lo + 1, hi)
  }

  function Before(front: seq<Byte>, r: Result<seq<Byte>, DecodeError>): Result<seq<Byte>, DecodeError> {
    if r.Ok? then Ok(front + r.value) else r
  }

  /** The zero that a code byte stands for: none after a full block or at the end. */
  function Restored(code: Byte, more: bool): seq<Byte> {
    if code < 0xFF && more then [0] else []
  }

  function DecodeFrom(s: seq<Byte>, r: nat): Result<seq<Byte>, DecodeError>
    requires r <= |s|
    decreases |s| - r
  {
    if r == |s| then Ok([])
    else
      var code := s[r];
      if code == 0 then Err(UnexpectedZero(r))
      else if r + code > |s| then Err(InvalidStructure)
      else if FirstZero(s, r + 1, r + code).Some? then Err(UnexpectedZero(FirstZero(s, r + 1, r + code).value))
      else Before(s[r + 1..r + code] + Restored(code, r + code < |s|), DecodeFrom(s, r + code))
  }

  function Decode(s: seq<Byte>): Result<seq<Byte>, DecodeError> {
    if s == [] then Err(EmptyFrame) else DecodeFrom(s, 0)
  }

  // ------------------------------------------------------------------------------------------
  // What survives the round trip
  // ------------------------------------------------------------------------------------------

  /** The number of nonzero bytes directly before position `i`. */
  function RunBefore(x: seq<Byte>, i: nat): nat
    requires i <= |x|
  {
    if i == 0 || x[i - 1] == 0 then 0 else 1 + RunBefore(x, i - 1)
  }

  /** A zero directly after one or more full blocks. */
  predicate Lost(x: seq<Byte>, i: nat)
    requires i < |x|
  {
    x[i] == 0 && RunBefore(x, i) > 0 && RunBefore(x, i) % FULL == 0
  }

  /** `x` without its lost zeros. */
  function Kept(x: seq<Byte>): seq<Byte> {
    if x == [] then []
    else
      var n := |x| - 1;
      Kept(x[..n]) + (if Lost(x, n) then [] else [x[n]])
  }

  /** The same, from the front, with `run` nonzero bytes already seen. */
  function KeptAfter(x: seq<Byte>, run: nat): seq<Byte> {
    if x == [] then []
    else if x[0] != 0 then [x[0]] + KeptAfter(x[1..], run + 1)
    else (if run > 0 && run % FULL == 0 then [] else [0]) + KeptAfter(x[1..], 0)
  }

  function RunOn(x: seq<Byte>, run: nat): nat {
    if x == [] then run else if x[|x| - 1] == 0 then 0 else RunOn(x[..|x| - 1], run) + 1
  }

  lemma {:induction false} RunOnIsRunBefore(x: seq<Byte>)
    ensures RunOn(x, 0) == RunBefore(x, |x|)
  {
    if x != [] && x[|x| - 1] != 0 {
      RunOnIsRunBefore(x[..|x| - 1]);
      RunBeforePrefix(x, |x| - 1, |x| - 1);
    }
  }

  lemma {:induction false} RunBeforePrefix(x: seq<Byte>, n: nat, i: nat)
    requires i <= n <= |x|
    ensures RunBefore(x[..n], i) == RunBefore(x, i)
  {
    if i > 0 {
      RunBeforePrefix(x, n, i - 1);
    }
  }

  /** What a last byte `b` adds after `run` nonzero bytes. */
  function KeptByte(run: nat, b: Byte): seq<Byte> {
    if b == 0 && run > 0 && run % FULL == 0 then [] else [b]
  }

  lemma {:induction false} KeptAfterSnoc(x: seq<Byte>, run: nat, b: Byte)
    ensures KeptAfter(x + [b], run) == KeptAfter(x, run) + KeptByte(RunOn(x, run), b)
    decreases |x|
  {
    if x == [] {
      assert x + [b] == [b];
      KeptOne(run, b);
    } else {
      hide KeptAfter, KeptByte;
      var run' := if x[0] == 0 then 0 else run + 1;
      KeptFirst(x, run);
      KeptFirst(x + [b], run);
      assert (x + [b])[1..] == x[1..] + [b];
      RunOnFront(x, run);
      KeptAfterSnoc(x[1..], run', b);
      Associates(KeptByte(run, x[0]), KeptAfter(x[1..], run'), KeptByte(RunOn(x, run), b));
    }
  }

  lemma KeptFirst(x: seq<Byte>, run: nat)
    requires x != []
    ensures KeptAfter(x, run) == KeptByte(run, x[0]) + KeptAfter(x[1..], if x[0] == 0 then 0 else run + 1)
  {
  }

  lemma KeptOne(run: nat, b: Byte)
    ensures KeptAfter([b], run) == KeptByte(run, b) && KeptAfter([], run) == [] && RunOn([], run) == run
  {
  }

  lemma {:induction false} RunOnFront(x: seq<Byte>, run: nat)
    requires x != []
    ensures RunOn(x, run) == RunOn(x[1..], if x[0] == 0 then 0 else run + 1)
  {
    if |x| > 1 && x[|x| - 1] != 0 {
      RunOnFront(x[..|x| - 1], run);
      assert x[..|x| - 1][1..] == x[1..][..|x| - 2];
    }
  }

  lemma {:induction false} KeptFromFront(x: seq<Byte>)
    ensures KeptAfter(x, 0) == Kept(x)
  {
    if x != [] {
      var n := |x| - 1;
      KeptFromFront(x[..n]);
      KeptAfterSnoc(x[..n], 0, x[n]);
      assert x[..n] + [x[n]] == x;
      RunOnIsRunBefore(x[..n]);
      RunBeforePrefix(x, n, n);
    }
  }

  /** A run counts only up to full blocks. */
  lemma {:induction false} FullBlocksDoNotCount(x: seq<Byte>, run: nat)
    requires run > 0 || (x != [] && x[0] != 0)
    ensures KeptAfter(x, run + FULL) == KeptAfter(x, run)
  {
    if x != [] {
      hide KeptAfter;
      KeptFirst(x, run);
      KeptFirst(x, run + FULL);
      if x[0] != 0 {
        FullBlocksDoNotCount(x[1..], run + 1);
      }
    }
  }

  lemma {:induction false} RunIsKept(x: seq<Byte>, k: nat, run: nat)
    requires k <= |x| && forall i :: 0 <= i < k ==> x[i] != 0
    ensures KeptAfter(x, run) == x[..k] + KeptAfter(x[k..], run + k)
  {
    if k == 0 {
      assert x[0..] == x && x[..0] == [];
    } else {
      hide KeptAfter;
      RunIsKept(x, k - 1, run);
      KeptFirst(x[k - 1..], run + k - 1);
      assert x[k - 1..][1..] == x[k..];
      assert x[..k - 1] + [x[k - 1]] == x[..k];
      Associates(x[..k - 1], [x[k - 1]], KeptAfter(x[k..], run + k));
    }
  }

  lemma Associates(a: seq<Byte>, b: seq<Byte>, c: seq<Byte>)
    ensures a + (b + c) == a + b + c
  {
  }

  /** Nothing is left to encode after the first block of `x`. */
  predicate OneBlock(x: seq<Byte>) {
    BlockLength(x, FULL) == |x|
  }

  lemma EncodeLast(x: seq<Byte>)
    requires x != [] && OneBlock(x)
    ensures Encode(x) == [|x| + 1] + x
  {
    assert x[..|x|] == x;
    assert AfterBlock(x, |x|) == [];
    assert EncodeBlocks(x) == [|x| + 1] + x[..|x|] + EncodeBlocks(AfterBlock(x, |x|));
    assert Closing(x) == [];
  }

  lemma EncodeMore(x: seq<Byte>)
    requires x != [] && !OneBlock(x)
    ensures var k := BlockLength(x, FULL);
            Encode(x) == [k + 1] + x[..k] + Encode(AfterBlock(x, k))
  {
    hide BlockLength;
    ClosingStays(x);
    var k := BlockLength(x, FULL);
    var y := AfterBlock(x, k);
    assert EncodeBlocks(x) == [k + 1] + x[..k] + EncodeBlocks(y);
  }

  lemma ClosingStays(x: seq<Byte>)
    requires x != [] && !OneBlock(x)
    ensures Closing(x) == Closing(AfterBlock(x, BlockLength(x, FULL)))
  {
  }

  lemma EncodeNonempty(x: seq<Byte>)
    ensures Encode(x) != []
  {
  }

  /** One block of a frame: the code byte at `r`, its data, and what follows. */
  lemma DecodeStep(s: seq<Byte>, r: nat)
    requires r < |s| && s[r] != 0 && r + s[r] <= |s|
    requires forall i :: r + 1 <= i < r + s[r] ==> s[i] != 0
    ensures DecodeFrom(s, r) == Before(s[r + 1..r + s[r]] + Restored(s[r], r + s[r] < |s|), DecodeFrom(s, r + s[r]))
  {
    hide Before, Restored;
    assert FirstZero(s, r + 1, r + s[r]).None?;
  }

  lemma BlockSlices(s: seq<Byte>, r: nat, data: seq<Byte>, rest: seq<Byte>)
    requires r <= |s| && |data| < 255 && s[r..] == [|data| + 1] + data + rest
    ensures r < |s| && s[r] == |data| + 1 && r + s[r] <= |s|
    ensures s[r + 1..r + s[r]] == data && s[r + s[r]..] == rest
  {
    var t := s[r..];
    assert t[0] == s[r] && t[1..|data| + 1] == data && t[|data| + 1..] == rest;
    assert s[r + 1..r + s[r]] == t[1..|data| + 1];
  }

  /** A block whose data has no zero. */
  lemma DecodeBlock(s: seq<Byte>, r: nat, data: seq<Byte>, rest: seq<Byte>)
    requires r <= |s| && |data| < 255 && s[r..] == [|data| + 1] + data + rest
    requires forall i :: 0 <= i < |data| ==> data[i] != 0
    ensures r + |data| + 1 <= |s| && s[r + |data| + 1..] == rest
    ensures DecodeFrom(s, r) == Before(data + Restored(|data| + 1, rest != []), DecodeFrom(s, r + |data| + 1))
  {
    hide DecodeFrom, Before, Restored;
    BlockSlices(s, r, data, rest);
    forall i | r + 1 <= i < r + s[r]
      ensures s[i] != 0
    {
      assert s[i] == data[i - r - 1];
    }
    DecodeStep(s, r);
  }

  lemma {:induction false} DecodeOfEncode(s: seq<Byte>, r: nat, x: seq<Byte>)
    requires r <= |s| && s[r..] == Encode(x)
    ensures DecodeFrom(s, r) == Ok(KeptAfter(x, 0))
    decreases |x|
  {
    hide BlockLength, EncodeBlocks, Closing, Encode;
    if x == [] {
      EncodeNothing();
      assert s[r..] == [1] + [] + [];
      DecodeBlock(s, r, [], []);
      assert r + 1 == |s| && [] + Restored(1, false) == [];
      EndOfFrame(s, []);
    } else if OneBlock(x) {
      EncodeLast(x);
      DecodeLast(s, r, x);
    } else {
      DecodeOfMore(s, r, x);
    }
  }

  lemma DecodeLast(s: seq<Byte>, r: nat, x: seq<Byte>)
    requires r <= |s| && s[r..] == [|x| + 1] + x && OneBlock(x)
    ensures DecodeFrom(s, r) == Ok(KeptAfter(x, 0))
  {
    hide BlockLength, DecodeFrom;
    RunIsKept(x, |x|, 0);
    assert s[r..] == [|x| + 1] + x + [];
    DecodeBlock(s, r, x, []);
    EndOfFrame(s, x + Restored(|x| + 1, false));
    assert x[..|x|] == x && x[|x|..] == [] && x + [] == x;
  }

  lemma EndOfFrame(s: seq<Byte>, front: seq<Byte>)
    ensures Before(front, DecodeFrom(s, |s|)) == Ok(front)
  {
    assert front + [] == front;
  }

  lemma EncodeNothing()
    ensures Encode([]) == [1]
  {
  }

  lemma DecodeOfMore(s: seq<Byte>, r: nat, x: seq<Byte>)
    requires x != [] && !OneBlock(x) && r <= |s| && s[r..] == Encode(x)
    ensures DecodeFrom(s, r) == Ok(KeptAfter(x, 0))
    decreases |x|, 0
  {
    hide EncodeBlocks, Closing, DecodeFrom, Encode, KeptAfter, Restored;
    var k := BlockLength(x, FULL);
    var y := AfterBlock(x, k);
    EncodeMore(x);
    EncodeNonempty(y);
    DecodeBlock(s, r, x[..k], Encode(y));
    DecodeOfEncode(s, r + k + 1, y);
    MoreIsKept(x);
  }

  lemma MoreIsKept(x: seq<Byte>)
    requires x != [] && !OneBlock(x)
    ensures var k := BlockLength(x, FULL);
            KeptAfter(x, 0) == x[..k] + Restored(k + 1, true) + KeptAfter(AfterBlock(x, k), 0)
  {
    hide KeptAfter, AfterBlock, BlockLength, Restored;
    var k := BlockLength(x, FULL);
    RunIsKept(x, k, 0);
    BlockIsKept(x, k);
    Associates(x[..k], Restored(k + 1, true), KeptAfter(AfterBlock(x, k), 0));
  }

  lemma BlockIsKept(x: seq<Byte>, k: nat)
    requires k < |x| && k == BlockLength(x, FULL)
    ensures KeptAfter(x[k..], k) == Restored(k + 1, true) + KeptAfter(AfterBlock(x, k), 0)
  {
    hide BlockLength;
    if x[k] == 0 {
      ZeroIsKept(x[k..], k);
      assert x[k..][1..] == x[k + 1..];
    } else {
      hide KeptAfter;
      FullBlocksDoNotCount(x[k..], 0);
    }
  }

  lemma ZeroIsKept(x: seq<Byte>, run: nat)
    requires x != [] && x[0] == 0 && run <= FULL
    ensures KeptAfter(x, run) == Restored(run + 1, true) + KeptAfter(x[1..], 0)
  {
  }

  /** Decoding an encoding gives back everything but the zeros directly after full blocks. */
  lemma RoundTrip(x: seq<Byte>)
    ensures Decode(Encode(x)) == Ok(Kept(x))
  {
    EncodeNonempty(x);
    DecodeOfEncode(Encode(x), 0, x);
    KeptFromFront(x);
  }

  lemma {:induction false} KeptIsShorter(x: seq<Byte>)
    ensures |Kept(x)| <= |x|
    ensures Kept(x) == x <==> forall i :: 0 <= i < |x| ==> !Lost(x, i)
    ensures (exists i :: 0 <= i < |x| && Lost(x, i)) ==> |Kept(x)| < |x|
  {
    if x != [] {
      var n := |x| - 1;
      KeptIsShorter(x[..n]);
      forall i | 0 <= i < n
        ensures Lost(x[..n], i) <==> Lost(x, i)
      {
        RunBeforePrefix(x, n, i);
      }
      assert x == x[..n] + [x[n]];
    }
  }

  /** The round trip is the identity exactly on data without a zero directly after a full block. */
  lemma RoundTripIff(x: seq<Byte>)
    ensures Decode(Encode(x)) == Ok(x) <==> forall i :: 0 <= i < |x| ==> !Lost(x, i)
  {
    RoundTrip(x);
    KeptIsShorter(x);
  }

  /** The smallest input that is not restored: 254 ones and a zero. */
  lemma RoundTripFails()
    ensures var x := seq(254, _ => 1) + [0];
            Decode(Encode(x)) == Ok(x[..254])
  {
    var ones: seq<Byte> := seq(254, _ => 1);
    var x := ones + [0];
    RoundTrip(x);
    NoZeroLost(ones, 254);
    assert x[..254] == ones && ones[..254] == ones;
    RunBeforePrefix(x, 254, 254);
    assert RunBefore(ones, 254) == 254;
    assert Lost(x, 254) && |x| - 1 == 254;
    assert Kept(x) == Kept(x[..|x| - 1]) + [];
    assert Kept(x) == ones;
  }

  /** No 254 bytes in a row are nonzero. */
  predicate ShortRuns(x: seq<Byte>) {
    forall i: nat :: i <= |x| ==> BlockLength(x[i..], FULL) < FULL
  }

  /**
   * Without a run of 254 nonzero bytes, the encoding is one byte longer than the data: nonzero bytes stay, one place
   * further on, and the first byte and those in place of the zeros say how far it is to the next such place.
   */
  lemma {:induction false} EncodedByte(x: seq<Byte>, i: nat)
    requires ShortRuns(x) && i <= |x|
    ensures |Encode(x)| == |x| + 1
    ensures Encode(x)[i] == if i > 0 && x[i - 1] != 0 then x[i - 1] else 1 + BlockLength(x[i..], FULL)
    decreases |x|
  {
    hide Encode, BlockLength, ShortRuns;
    var k := BlockLength(x, FULL);
    FrontIsShort(x);
    assert x[0..] == x;
    if x == [] {
      EncodeNothing();
    } else if k == |x| {
      EncodeLast(x);
    } else {
      var rest := x[k + 1..];
      EncodeMore(x);
      assert AfterBlock(x, k) == rest;
      RestIsShort(x, k + 1);
      var j := if i > k then i - k - 1 else 0;
      assert rest[j..] == x[k + 1 + j..];
      EncodedByte(rest, j);
    }
  }

  lemma FrontIsShort(x: seq<Byte>)
    requires ShortRuns(x)
    ensures BlockLength(x, FULL) < FULL
  {
    hide BlockLength;
    assert x[0..] == x && BlockLength(x[0..], FULL) < FULL;
  }

  lemma RestIsShort(x: seq<Byte>, n: nat)
    requires ShortRuns(x) && n <= |x|
    ensures ShortRuns(x[n..])
  {
    hide BlockLength;
    forall j: nat | j <= |x| - n
      ensures BlockLength(x[n..][j..], FULL) < FULL
    {
      assert x[n..][j..] == x[n + j..];
    }
  }

  lemma {:induction false} NoZeroLost(x: seq<Byte>, n: nat)
    requires n <= |x| && forall i :: 0 <= i < n ==> x[i] != 0
    ensures Kept(x[..n]) == x[..n] && RunBefore(x, n) == n
  {
    if n > 0 {
      NoZeroLost(x, n - 1);
      assert x[..n][..n - 1] == x[..n - 1];
      assert x[..n] == x[..n - 1] + [x[n - 1]];
    }
  }

  lemma {:induction false} EncodeBlocksNonzero(x: seq<Byte>)
    ensures forall b :: b in EncodeBlocks(x) ==> b != 0
    decreases |x|
  {
    if x != [] {
      var k := BlockLength(x, FULL);
      EncodeBlocksNonzero(AfterBlock(x, k));
      assert forall b :: b in x[..k] ==> b != 0;
    }
  }

  lemma {:induction false} EncodeBlocksSize(x: seq<Byte>)
    ensures |EncodeBlocks(x)| + |Closing(x)| <= |x| + |x| / FULL + 1
    decreases |x|
  {
    hide BlockLength, AfterBlock;
    if x != [] {
      var k := BlockLength(x, FULL);
      OneBlockSize(x, k);
      EncodeBlocksSize(AfterBlock(x, k));
      EncodeBlocksStep(x, k);
      ClosingAfterBlock(x, k);
    }
  }

  lemma ClosingAfterBlock(x: seq<Byte>, k: nat)
    requires x != [] && k == BlockLength(x, FULL)
    ensures AfterBlock(x, k) == [] ==> |Closing(x)| == if k == |x| then 0 else 1
    ensures AfterBlock(x, k) != [] ==> Closing(AfterBlock(x, k)) == Closing(x)
  {
    hide BlockLength;
  }

  lemma OneBlockSize(x: seq<Byte>, k: nat)
    requires x != [] && k == BlockLength(x, FULL)
    ensures var rest := AfterBlock(x, k);
            && |rest| < |x|
            && 1 + k + |rest| + |rest| / FULL <= |x| + |x| / FULL + (if rest == [] && k == |x| then 1 else 0)
  {
    hide BlockLength;
    var rest := AfterBlock(x, k);
    if k < |x| && x[k] == 0 {
      assert |rest| / FULL <= |x| / FULL;
    } else if k < |x| {
      assert k == FULL && |rest| == |x| - FULL;
      assert |rest| / FULL == |x| / FULL - 1;
    }
  }

  /** An encoding has no zero, and is at most one byte longer than the data for every full block and one more. */
  lemma EncodeSize(x: seq<Byte>)
    ensures 0 !in Encode(x)
    ensures 1 <= |Encode(x)| <= |x| + |x| / FULL + 1
  {
    EncodeBlocksNonzero(x);
    EncodeBlocksSize(x);
    EncodeNonempty(x);
  }

  // ------------------------------------------------------------------------------------------
  // One turn of the loops that encode and decode
  // ------------------------------------------------------------------------------------------

  lemma EncodeBlocksStep(x: seq<Byte>, k: nat)
    requires x != [] && k == BlockLength(x, FULL)
    ensures EncodeBlocks(x) == [k + 1] + x[..k] + EncodeBlocks(AfterBlock(x, k))
  {
  }

  /** The position after the block that ends at `blockEnd` and the zero that ended it. */
  function NextBlock(x: seq<Byte>, blockEnd: nat): (next: nat)
    requires blockEnd <= |x|
    ensures next <= |x|
  {
    if blockEnd < |x| && x[blockEnd] == 0 then blockEnd + 1 else blockEnd
  }

  lemma RestAfterBlock(x: seq<Byte>, r: nat, blockEnd: nat)
    requires r <= blockEnd <= |x|
    ensures AfterBlock(x[r..], blockEnd - r) == x[NextBlock(x, blockEnd)..]
    ensures x[r..][..blockEnd - r] == x[r..blockEnd]
  {
  }

  /** What one turn of the encoding loop adds to the output. */
  lemma Advances(x: seq<Byte>, r: nat, blockEnd: nat)
    requires r < |x| && blockEnd == r + BlockLength(x[r..], FULL)
    ensures r < NextBlock(x, blockEnd)
  {
    hide BlockLength;
    if blockEnd == r {
      assert x[r..][0] == x[r];
    }
  }

  lemma EncodeBlocksAt(x: seq<Byte>, r: nat, blockEnd: nat)
    requires r < |x| && blockEnd == r + BlockLength(x[r..], FULL)
    ensures r < NextBlock(x, blockEnd)
    ensures EncodeBlocks(x[r..]) == [blockEnd - r + 1] + x[r..blockEnd] + EncodeBlocks(x[NextBlock(x, blockEnd)..])
  {
    hide BlockLength, EncodeBlocks, AfterBlock, NextBlock;
    Advances(x, r, blockEnd);
    EncodeBlocksStep(x[r..], blockEnd - r);
    RestAfterBlock(x, r, blockEnd);
  }

  /** Writing one block keeps what is written and what is left together equal to the whole. */
  lemma EncodeTurn(output: seq<Byte>, x: seq<Byte>, r: nat, blockEnd: nat)
    requires r < |x| && blockEnd == r + BlockLength(x[r..], FULL)
    requires output + EncodeBlocks(x[r..]) == EncodeBlocks(x)
    ensures r < NextBlock(x, blockEnd)
    ensures output + [blockEnd - r + 1] + x[r..blockEnd] + EncodeBlocks(x[NextBlock(x, blockEnd)..]) == EncodeBlocks(x)
    ensures |output| + 1 + (blockEnd - r) <= |EncodeBlocks(x)|
  {
    hide BlockLength, EncodeBlocks, NextBlock;
    EncodeBlocksAt(x, r, blockEnd);
    Regroup(output, [blockEnd - r + 1], x[r..blockEnd], EncodeBlocks(x[NextBlock(x, blockEnd)..]));
  }

  lemma Regroup(a: seq<Byte>, b: seq<Byte>, c: seq<Byte>, d: seq<Byte>)
    ensures a + (b + c + d) == a + b + c + d
  {
  }

  lemma NothingToEncode(x: seq<Byte>)
    ensures EncodeBlocks(x[|x|..]) == []
  {
  }

  /** The last code byte, and the room for the blocks before it. */
  lemma EncodeEnds(x: seq<Byte>)
    ensures Encode(x) == EncodeBlocks(x) + (if x == [] || x[|x| - 1] == 0 then [1] else [])
    ensures |EncodeBlocks(x)| <= |Encode(x)| <= |x| + |x| / FULL + 1
  {
    hide EncodeBlocks;
    EncodeBlocksSize(x);
  }

  lemma DecodeAt(s: seq<Byte>, r: nat)
    requires r < |s|
    ensures s[r] == 0 ==> DecodeFrom(s, r) == Err(UnexpectedZero(r))
    ensures s[r] != 0 && r + s[r] > |s| ==> DecodeFrom(s, r) == Err(InvalidStructure)
    ensures s[r] != 0 && r + s[r] <= |s| ==>
              var zero := FirstZero(s, r + 1, r + s[r]);
              DecodeFrom(s, r) ==
              if zero.Some? then Err(UnexpectedZero(zero.value))
              else Before(s[r + 1..r + s[r]] + Restored(s[r], r + s[r] < |s|), DecodeFrom(s, r + s[r]))
  {
    hide Before, Restored;
  }

  lemma FirstZeroFrom(s: seq<Byte>, lo: nat, hi: nat)
    requires lo < hi <= |s|
    ensures FirstZero(s, lo, hi) == if s[lo] == 0 then Some(lo) else FirstZero(s, lo + 1, hi)
  {
  }

  lemma NoneLeft(s: seq<Byte>, hi: nat)
    requires hi <= |s|
    ensures FirstZero(s, hi, hi) == None
  {
  }

  /** What one turn of the decoding loop at `r` makes of the result, when `front` has been decoded. */
  lemma DecodeTurn(s: seq<Byte>, front: seq<Byte>, r: nat)
    requires r < |s| && DecodeFrom(s, 0) == Before(front, DecodeFrom(s, r))
    ensures s[r] == 0 ==> DecodeFrom(s, 0) == Err(UnexpectedZero(r))
    ensures s[r] != 0 && r + s[r] > |s| ==> DecodeFrom(s, 0) == Err(InvalidStructure)
    ensures s[r] != 0 && r + s[r] <= |s| ==>
              var zero := FirstZero(s, r + 1, r + s[r]);
              DecodeFrom(s, 0) ==
              if zero.Some? then Err(UnexpectedZero(zero.value))
              else Before(front + s[r + 1..r + s[r]] + Restored(s[r], r + s[r] < |s|), DecodeFrom(s, r + s[r]))
  {
    hide DecodeFrom, FirstZero, Restored;
    DecodeAt(s, r);
    if s[r] != 0 && r + s[r] <= |s| {
      var data, zero := s[r + 1..r + s[r]], Restored(s[r], r + s[r] < |s|);
      BeforeTwice(front, data + zero, DecodeFrom(s, r + s[r]));
      Associates(front, data, zero);
    }
  }

  lemma BeforeNothing(r: Result<seq<Byte>, DecodeError>)
    ensures Before([], r) == r
  {
    if r.Ok? {
      assert [] + r.value == r.value;
    }
  }

  lemma BeforeTwice(a: seq<Byte>, b: seq<Byte>, r: Result<seq<Byte>, DecodeError>)
    ensures Before(a, Before(b, r)) == Before(a + b, r)
  {
    if r.Ok? {
      assert a + (b + r.value) == a + b + r.value;
    }
  }
}
