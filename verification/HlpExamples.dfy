/** Worked examples of the check value and of the packet. */
module HlpExamples {
  import opened Prelude
  import opened Octets
  import opened Crc32
  import opened HlpPacket

  function EightShifts(c: bv32): bv32 {
    Crc32.Shift(Crc32.Shift(Crc32.Shift(Crc32.Shift(Crc32.Shift(Crc32.Shift(Crc32.Shift(Crc32.Shift(c))))))))
  }

  lemma FeedIs(c: bv32, b: bv8)
    ensures Feed(c, b) == EightShifts(c ^ (b as bv32))
  {
    hide Crc32.Shift;
    var x := c ^ (b as bv32);
    assert Shifts(x, 2) == Crc32.Shift(Shifts(x, 1)) == Crc32.Shift(Crc32.Shift(Shifts(x, 0)));
    assert Shifts(x, 4) == Crc32.Shift(Shifts(x, 3)) == Crc32.Shift(Crc32.Shift(Shifts(x, 2)));
    assert Shifts(x, 6) == Crc32.Shift(Shifts(x, 5)) == Crc32.Shift(Crc32.Shift(Shifts(x, 4)));
    assert Shifts(x, 8) == Crc32.Shift(Shifts(x, 7)) == Crc32.Shift(Crc32.Shift(Shifts(x, 6)));
  }

  /** One more byte of data. */
  lemma FeedNext(data: seq<bv8>, n: nat, c: bv32, r: bv32)
    requires n < |data| && FeedAll(0xFFFFFFFF, data[..n]) == c && EightShifts(c ^ (data[n] as bv32)) == r
    ensures FeedAll(0xFFFFFFFF, data[..n + 1]) == r
  {
    hide Feed, EightShifts;
    FeedIs(c, data[n]);
    assert data[..n + 1][..n] == data[..n];
  }

  lemma CrcIs(data: seq<bv8>, c: bv32, r: bv32)
    requires FeedAll(0xFFFFFFFF, data[..|data|]) == c && !c == r
    ensures Crc(data) == r
  {
    assert data[..|data|] == data;
  }

  /** The check value of CRC-32: that of the digits 1 to 9. */
  lemma CheckValue()
    ensures Crc([0x31, 0x32, 0x33, 0x34, 0x35, 0x36, 0x37, 0x38, 0x39]) == 0xCBF43926
  {
    hide Crc, FeedAll;
    var data: seq<bv8> := [0x31, 0x32, 0x33, 0x34, 0x35, 0x36, 0x37, 0x38, 0x39];
    NothingFed(data);
    FeedNext(data, 0, 0xFFFFFFFF, 0x7C231048);
    FeedNext(data, 1, 0x7C231048, 0xB0ACBB32);
    FeedNext(data, 2, 0xB0ACBB32, 0x77B79C2D);
    FeedNext(data, 3, 0x77B79C2D, 0x641C1F5C);
    FeedNext(data, 4, 0x641C1F5C, 0x340AC5E3);
    FeedNext(data, 5, 0x340AC5E3, 0xF68D2C9E);
    FeedNext(data, 6, 0xF68D2C9E, 0xAFFC9660);
    FeedNext(data, 7, 0xAFFC9660, 0x651F2550);
    FeedNext(data, 8, 0x651F2550, 0x340BC6D9);
    CrcIs(data, 0x340BC6D9, 0xCBF43926);
  }

  lemma NothingFed(data: seq<bv8>)
    ensures FeedAll(0xFFFFFFFF, data[..0]) == 0xFFFFFFFF
  {
  }

  lemma HeartbeatCrc()
    ensures Crc([0xFE, 0x01, 0x00, 0x01, 0x00, 0x00, 0x00, 0xAA]) == 0x22D7B1E3
  {
    hide Crc, FeedAll;
    var data: seq<bv8> := [0xFE, 0x01, 0x00, 0x01, 0x00, 0x00, 0x00, 0xAA];
    NothingFed(data);
    FeedNext(data, 0, 0xFFFFFFFF, 0x77F8CF69);
    FeedNext(data, 1, 0x77F8CF69, 0x431E11A5);
    FeedNext(data, 2, 0x431E11A5, 0xA6FF4976);
    FeedNext(data, 3, 0xA6FF4976, 0xCEC71BD6);
    FeedNext(data, 4, 0xCEC71BD6, 0x6F7EB0FA);
    FeedNext(data, 5, 0x6F7EB0FA, 0x5D0765B2);
    FeedNext(data, 6, 0x5D0765B2, 0x2532D5C5);
    FeedNext(data, 7, 0x2532D5C5, 0xDD284E1C);
    CrcIs(data, 0xDD284E1C, 0x22D7B1E3);
  }

  /** A heartbeat with sequence number 1 and one byte of payload, byte by byte. */
  lemma HeartbeatPrinted()
    ensures Print(Packet(Heartbeat, 1, [0xAA]))
         == [0xFE, 0x01, 0x00, 0x01, 0x00, 0x00, 0x00, 0xAA] + [0xE3, 0xB1, 0xD7, 0x22]
  {
    hide Crc, ByteOf;
    SmallBytes();
    HeartbeatCrc();
    var p := Packet(Heartbeat, 1, [0xAA]);
    assert Bytes(1) == [0x01, 0x00, 0x00, 0x00];
    assert Body(p) == [0xFE, 0x01, 0x00, 0x01, 0x00, 0x00, 0x00, 0xAA];
    assert Bytes(0x22D7B1E3) == [0xE3, 0xB1, 0xD7, 0x22];
  }

  /** The same bytes, whatever follows them, parse to that packet. */
  lemma HeartbeatParsed(t: seq<bv8>)
    ensures Parse([0xFE, 0x01, 0x00, 0x01, 0x00, 0x00, 0x00, 0xAA] + [0xE3, 0xB1, 0xD7, 0x22] + t)
         == Ok(Packet(Heartbeat, 1, [0xAA]))
  {
    hide Parse, Print;
    HeartbeatPrinted();
    RoundTripIff(Packet(Heartbeat, 1, [0xAA]), t);
  }
}
