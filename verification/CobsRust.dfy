/** The codec of `hidra_net/src/cobs.rs`: both directions build their output byte by byte. */
module CobsRust {
  import opened Prelude
  import opened Cobs

  /** Looks for the end of the block that starts at `readIdx`. */
  method BlockEnd(input: seq<Byte>, readIdx: nat) returns (blockEnd: nat)
    requires readIdx <= |input|
    ensures blockEnd == readIdx + BlockLength(input[readIdx..], FULL)
  {
    blockEnd := readIdx;
    while blockEnd < |input| && input[blockEnd] != 0 && blockEnd - readIdx < FULL
      invariant readIdx <= blockEnd <= |input| && blockEnd - readIdx <= FULL
      invariant readIdx + BlockLength(input[readIdx..], FULL)
             == blockEnd + BlockLength(input[blockEnd..], FULL - (blockEnd - readIdx))
    {
      assert input[blockEnd..][1..] == input[blockEnd + 1..];
      blockEnd := blockEnd + 1;
    }
  }

  method Encode(input: seq<Byte>) returns (output: seq<Byte>)
    ensures output == Cobs.Encode(input)
  {
    hide BlockLength, EncodeBlocks;
    output := [];
    var readIdx := 0;
    assert input[0..] == input;
    while readIdx < |input|
      invariant readIdx <= |input|
      invariant output + EncodeBlocks(input[readIdx..]) == EncodeBlocks(input)
    {
      var blockEnd := BlockEnd(input, readIdx);
      var blockLen := blockEnd - readIdx;
      EncodeTurn(output, input, readIdx, blockEnd);
      if blockEnd < |input| && input[blockEnd] == 0 {
        output := output + [blockLen + 1];
        output := output + input[readIdx..blockEnd];
        readIdx := blockEnd + 1;
      } else {
        output := output + [blockLen + 1];
        output := output + input[readIdx..blockEnd];
        readIdx := blockEnd;
      }
    }
    NothingToEncode(input);
    if |input| == 0 || input[|input| - 1] == 0 {
      output := output + [1];
    }
  }

  method Decode(input: seq<Byte>) returns (r: Result<seq<Byte>, DecodeError>)
    ensures r == Cobs.Decode(input)
  {
    hide DecodeFrom, Before, FirstZero;
    if |input| == 0 {
      return Err(EmptyFrame);
    }
    var output: seq<Byte> := [];
    var readIdx := 0;
    BeforeNothing(DecodeFrom(input, 0));
    while readIdx < |input|
      invariant readIdx <= |input|
      invariant DecodeFrom(input, 0) == Before(output, DecodeFrom(input, readIdx))
    {
      DecodeTurn(input, output, readIdx);
      var code := input[readIdx];
      if code == 0 {
        return Err(UnexpectedZero(readIdx));
      }
      readIdx := readIdx + 1;
      var dataCount := code - 1;
      if readIdx + dataCount > |input| {
        return Err(InvalidStructure);
      }
      ghost var before := output;
      for i := 0 to dataCount
        invariant FirstZero(input, readIdx, readIdx + dataCount) == FirstZero(input, readIdx + i, readIdx + dataCount)
        invariant output == before + input[readIdx..readIdx + i]
      {
        var byte := input[readIdx + i];
        if byte == 0 {
          return Err(UnexpectedZero(readIdx + i));
        }
        output := output + [byte];
      }
      ghost var data := input[readIdx..readIdx + dataCount];
      readIdx := readIdx + dataCount;
      if code < 0xFF && readIdx < |input| {
        output := output + [0];
      }
      assert output == before + data + Restored(code, readIdx < |input|);
    }
    EndOfFrame(input, output);
    r := Ok(output);
  }
}
