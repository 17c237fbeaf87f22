/**
 * The codec of `callwhite_mcu/src/cobs_framing.c`, which writes into a buffer its caller provides. Both
 * directions compute the same functions as the Rust side, and never write outside the declared bound.
 */
module CobsC {
  import opened Prelude
  import opened Cobs

  datatype Status = StatusOk | ErrEmpty | ErrUnexpectedZero | ErrInvalid

  /** `memcpy` of `n` bytes. */
  method Copy(dst: array<Byte>, at: nat, src: array<Byte>, start: nat, n: nat)
    requires dst != src && start + n <= src.Length && at + n <= dst.Length
    modifies dst
    ensures dst[..at] == old(dst[..at]) && dst[at..at + n] == src[start..start + n]
    ensures forall i | at + n <= i < dst.Length :: dst[i] == old(dst[i])
  {
    for i := 0 to n
      invariant dst[..at] == old(dst[..at]) && dst[at..at + i] == src[start..start + i]
      invariant forall k | at + i <= k < dst.Length :: dst[k] == old(dst[k])
    {
      dst[at + i] := src[start + i];
    }
  }

  /** Writes a code byte and the data of a block. */
  method WriteBlock(output: array<Byte>, writeIdx: nat, input: array<Byte>, blockStart: nat, blockLen: nat)
    requires input != output && blockStart + blockLen <= input.Length && writeIdx + 1 + blockLen <= output.Length
    requires blockLen <= FULL
    modifies output
    ensures output[..writeIdx + 1 + blockLen]
         == old(output[..writeIdx]) + [blockLen + 1] + input[blockStart..blockStart + blockLen]
    ensures forall i | writeIdx + 1 + blockLen <= i < output.Length :: output[i] == old(output[i])
  {
    output[writeIdx] := blockLen + 1;
    assert output[..writeIdx + 1] == old(output[..writeIdx]) + [blockLen + 1];
    Copy(output, writeIdx + 1, input, blockStart, blockLen);
    assert output[..writeIdx + 1 + blockLen] == output[..writeIdx + 1] + output[writeIdx + 1..writeIdx + 1 + blockLen];
  }

  /** The loop that writes the blocks. */
  method WriteBlocks(input: array<Byte>, inLen: nat, output: array<Byte>) returns (writeIdx: nat)
    requires input != output && inLen <= input.Length && |EncodeBlocks(input[..inLen])| <= output.Length
    modifies output
    ensures writeIdx <= output.Length && output[..writeIdx] == EncodeBlocks(input[..inLen])
    ensures forall i | writeIdx <= i < output.Length :: output[i] == old(output[i])
  {
    hide BlockLength, EncodeBlocks;
    ghost var x := input[..inLen];
    var readIdx: nat := 0;
    writeIdx := 0;
    assert x[0..] == x;
    while readIdx < inLen
      invariant readIdx <= inLen && writeIdx <= output.Length
      invariant output[..writeIdx] + EncodeBlocks(x[readIdx..]) == EncodeBlocks(x)
      invariant forall i | writeIdx <= i < output.Length :: output[i] == old(output[i])
    {
      var blockStart := readIdx;
      readIdx := BlockEnd(input, inLen, blockStart);
      ghost var front, blockEnd := output[..writeIdx], readIdx;
      EncodeTurn(front, x, blockStart, blockEnd);
      var blockLen := readIdx - blockStart;
      assert x[blockStart..blockEnd] == input[blockStart..blockEnd];
      WriteBlock(output, writeIdx, input, blockStart, blockLen);
      writeIdx := writeIdx + 1;
      writeIdx := writeIdx + blockLen;
      assert output[..writeIdx] == front + [blockLen + 1] + x[blockStart..blockEnd];
      if readIdx < inLen && input[readIdx] == 0 {
        readIdx := readIdx + 1;
      }
      assert readIdx == NextBlock(x, blockEnd);
    }
    NothingToEncode(x);
    assert output[..writeIdx] == EncodeBlocks(x);
  }

  /** The caller provides at least inLen + inLen / 254 + 2 bytes of output. */
  method CobsEncode(input: array<Byte>, inLen: nat, output: array<Byte>) returns (status: Status, outLen: nat)
    requires input != output && inLen <= input.Length
    requires inLen + inLen / FULL + 2 <= output.Length
    modifies output
    ensures status == StatusOk && outLen <= inLen + inLen / FULL + 1
    ensures output[..outLen] == Encode(input[..inLen])
    ensures forall i | outLen <= i < output.Length :: output[i] == old(output[i])
  {
    hide EncodeBlocks, Encode;
    ghost var x := input[..inLen];
    EncodeEnds(x);
    outLen := WriteBlocks(input, inLen, output);
    if inLen == 0 || input[inLen - 1] == 0 {
      output[outLen] := 1;
      outLen := outLen + 1;
      assert output[..outLen] == EncodeBlocks(x) + [1];
    }
    status := StatusOk;
  }

  method BlockEnd(input: array<Byte>, inLen: nat, blockStart: nat) returns (readIdx: nat)
    requires blockStart <= inLen <= input.Length
    ensures readIdx == blockStart + BlockLength(input[..inLen][blockStart..], FULL)
  {
    ghost var x := input[..inLen];
    readIdx := blockStart;
    while readIdx < inLen && input[readIdx] != 0 && readIdx - blockStart < FULL
      invariant blockStart <= readIdx <= inLen && readIdx - blockStart <= FULL
      invariant blockStart + BlockLength(x[blockStart..], FULL)
             == readIdx + BlockLength(x[readIdx..], FULL - (readIdx - blockStart))
    {
      assert x[readIdx..][1..] == x[readIdx + 1..];
      readIdx := readIdx + 1;
    }
  }

  /** The status that the C code returns for a result of `Decode`; it does not report positions. */
  function StatusOf(r: Result<seq<Byte>, DecodeError>): Status {
    match r
    case Ok(_) => StatusOk
    case Err(EmptyFrame) => ErrEmpty
    case Err(UnexpectedZero(_)) => ErrUnexpectedZero
    case Err(InvalidStructure) => ErrInvalid
  }

  /** Room for one byte less than the frame is enough. */
  method CobsDecode(input: array<Byte>, inLen: nat, output: array<Byte>) returns (status: Status, outLen: nat)
    requires input != output && inLen <= input.Length && inLen <= output.Length + 1
    modifies output
    ensures status == StatusOf(Decode(input[..inLen]))
    ensures status == StatusOk ==> outLen < inLen && output[..outLen] == Decode(input[..inLen]).value
    ensures inLen > 0 ==> output[inLen - 1..] == old(output[inLen - 1..])
  {
    hide DecodeFrom, Before, FirstZero;
    outLen := 0;
    if inLen == 0 {
      return ErrEmpty, 0;
    }
    ghost var x := input[..inLen];
    var readIdx: nat := 0;
    var writeIdx: nat := 0;
    BeforeNothing(DecodeFrom(x, 0));
    while readIdx < inLen
      invariant readIdx <= inLen && writeIdx <= readIdx && writeIdx < inLen
      invariant DecodeFrom(x, 0) == Before(output[..writeIdx], DecodeFrom(x, readIdx))
      invariant output[inLen - 1..] == old(output[inLen - 1..])
    {
      DecodeTurn(x, output[..writeIdx], readIdx);
      var code := input[readIdx];
      if code == 0 {
        return ErrUnexpectedZero, 0;
      }
      readIdx := readIdx + 1;
      var dataCount := code - 1;
      if readIdx + dataCount > inLen {
        return ErrInvalid, 0;
      }
      ghost var before := output[..writeIdx];
      var zero := CopyData(input, readIdx, dataCount, output, writeIdx, inLen);
      if zero {
        return ErrUnexpectedZero, 0;
      }
      writeIdx := writeIdx + dataCount;
      ghost var data := x[readIdx..readIdx + dataCount];
      assert input[..inLen] == x;
      assert input[..inLen][readIdx..readIdx + dataCount] == input[readIdx..readIdx + dataCount];
      assert output[..writeIdx] == before + data;
      readIdx := readIdx + dataCount;
      assert before + data + [] == before + data;
      if code < 0xFF && readIdx < inLen {
        output[writeIdx] := 0;
        writeIdx := writeIdx + 1;
        assert output[..writeIdx] == output[..writeIdx - 1] + [0];
      }
      assert output[..writeIdx] == before + data + Restored(code, readIdx < inLen);
    }
    EndOfFrame(x, output[..writeIdx]);
    outLen := writeIdx;
    status := StatusOk;
  }

  /** Copies the data bytes of one block, unless there is a zero among them. */
  method CopyData(input: array<Byte>, readIdx: nat, dataCount: nat, output: array<Byte>, writeIdx: nat, inLen: nat)
    returns (zero: bool)
    requires input != output && readIdx + dataCount <= inLen <= input.Length && inLen <= output.Length + 1
    requires writeIdx < readIdx
    modifies output
    ensures zero <==> FirstZero(input[..inLen], readIdx, readIdx + dataCount).Some?
    ensures !zero ==> output[..writeIdx + dataCount] == old(output[..writeIdx]) + input[readIdx..readIdx + dataCount]
    ensures output[inLen - 1..] == old(output[inLen - 1..])
  {
    hide FirstZero;
    ghost var x := input[..inLen];
    for i := 0 to dataCount
      invariant FirstZero(x, readIdx, readIdx + dataCount) == FirstZero(x, readIdx + i, readIdx + dataCount)
      invariant output[..writeIdx + i] == old(output[..writeIdx]) + input[readIdx..readIdx + i]
      invariant output[inLen - 1..] == old(output[inLen - 1..])
    {
      FirstZeroFrom(x, readIdx + i, readIdx + dataCount);
      if input[readIdx + i] == 0 {
        return true;
      }
      output[writeIdx + i] := input[readIdx + i];
    }
    NoneLeft(x, readIdx + dataCount);
    zero := false;
  }
}
