/** The HLP packet of `hidra_core/src/protocol.rs`: command, length, sequence number, payload, check value. */
module HlpPacket {
  import opened Prelude
  import opened Crc32
  import opened CrcErrors
  import opened Octets

  datatype Command =
    | EncryptRequest | EncryptResponse | DecryptRequest | DecryptResponse
    | KeyLoad | KeyLoadAck | StatusRequest | StatusResponse
    | KillCommand | KillAck | Heartbeat | HeartbeatAck

  function CommandByte(c: Command): bv8 {
    match c
    case EncryptRequest => 0x01
    case EncryptResponse => 0x02
    case DecryptRequest => 0x03
    case DecryptResponse => 0x04
    case KeyLoad => 0x10
    case KeyLoadAck => 0x11
    case StatusRequest => 0x20
    case StatusResponse => 0x21
    case KillCommand => 0xF0
    case KillAck => 0xF1
    case Heartbeat => 0xFE
    case HeartbeatAck => 0xFF
  }

  function CommandOf(b: bv8): Option<Command> {
    if b == 0x01 then Some(EncryptRequest)
    else if b == 0x02 then Some(EncryptResponse)
    else if b == 0x03 then Some(DecryptRequest)
    else if b == 0x04 then Some(DecryptResponse)
    else if b == 0x10 then Some(KeyLoad)
    else if b == 0x11 then Some(KeyLoadAck)
    else if b == 0x20 then Some(StatusRequest)
    else if b == 0x21 then Some(StatusResponse)
    else if b == 0xF0 then Some(KillCommand)
    else if b == 0xF1 then Some(KillAck)
    else if b == 0xFE then Some(Heartbeat)
    else if b == 0xFF then Some(HeartbeatAck)
    else None
  }

  datatype Packet = Packet(command: Command, sequence: bv32, payload: seq<bv8>)

  datatype ParseError = TooShort | UnknownCommand | LengthMismatch | CrcMismatch

  const HEADER_SIZE: nat := 7
  const CRC_SIZE: nat := 4

  /** A length, truncated to 16 bits, lowest byte first. */
  function LengthBytes(n: nat): (b: seq<bv8>)
    ensures |b| == 2
  {
    [ByteOf(n % 256), ByteOf(n / 256 % 256)]
  }

  function LengthOf(low: bv8, high: bv8): nat {
    NatOf(low) + 256 * NatOf(high)
  }

  function Body(p: Packet): seq<bv8> {
    [CommandByte(p.command)] + LengthBytes(|p.payload|) + Bytes(p.sequence) + p.payload
  }

  /** The bytes of a packet on the wire. */
  function Print(p: Packet): seq<bv8> {
    Body(p) + Bytes(Crc(Body(p)))
  }

  function Parse(data: seq<bv8>): Result<Packet, ParseError> {
    if |data| < HEADER_SIZE + CRC_SIZE then Err(TooShort)
    else if CommandOf(data[0]).None? then Err(UnknownCommand)
    else
      var len := LengthOf(data[1], data[2]);
      if |data| < HEADER_SIZE + len + CRC_SIZE then Err(LengthMismatch)
      else
        var crcOffset := HEADER_SIZE + len;
        if Word(data[crcOffset..crcOffset + 4]) != Crc(data[..crcOffset]) then Err(CrcMismatch)
        else Ok(Packet(CommandOf(data[0]).value, Word(data[3..7]), data[7..crcOffset]))
  }

  method ToBytes(p: Packet) returns (buf: seq<bv8>)
    ensures buf == Print(p)
  {
    buf := [];
    buf := buf + [CommandByte(p.command)];
    buf := buf + LengthBytes(|p.payload|);
    buf := buf + Bytes(p.sequence);
    buf := buf + p.payload;
    assert buf == Body(p);
    var crc := Compute(buf);
    buf := buf + Bytes(crc);
  }

  method FromBytes(data: seq<bv8>) returns (r: Result<Packet, ParseError>)
    ensures r == Parse(data)
  {
    hide CommandOf, Word, Crc, LengthOf;
    if |data| < HEADER_SIZE + CRC_SIZE {
      return Err(TooShort);
    }
    var command := CommandOf(data[0]);
    if command.None? {
      return Err(UnknownCommand);
    }
    var len := LengthOf(data[1], data[2]);
    var sequence := Word(data[3..7]);
    if |data| < HEADER_SIZE + len + CRC_SIZE {
      return Err(LengthMismatch);
    }
    var payload := data[HEADER_SIZE..HEADER_SIZE + len];
    var crcOffset := HEADER_SIZE + len;
    var expectedCrc := Word(data[crcOffset..crcOffset + 4]);
    var actualCrc := Compute(data[..crcOffset]);
    if expectedCrc != actualCrc {
      return Err(CrcMismatch);
    }
    r := Ok(Packet(command.value, sequence, payload));
  }

  // ------------------------------------------------------------------------------------------
  // Printing and parsing undo each other
  // ------------------------------------------------------------------------------------------

  lemma CommandRoundTrip(c: Command, b: bv8)
    ensures CommandOf(CommandByte(c)) == Some(c)
    ensures CommandOf(b).Some? ==> CommandByte(CommandOf(b).value) == b
  {
  }

  lemma LowTwoBytes(n: nat)
    ensures n % 256 + 256 * (n / 256 % 256) == n % 0x1_0000
  {
    var q := n / 256;
    assert q == 256 * (q / 256) + q % 256;
    RemainderOf(n, q / 256, n % 256 + 256 * (q % 256));
  }

  lemma RemainderOf(n: nat, a: nat, m: nat)
    requires n == 0x1_0000 * a + m && m < 0x1_0000
    ensures n % 0x1_0000 == m
  {
  }

  lemma LengthAsRead(n: nat)
    ensures LengthOf(LengthBytes(n)[0], LengthBytes(n)[1]) == n % 0x1_0000
  {
    hide ByteOf, NatOf;
    LowTwoBytes(n);
    NatOfByteOf(n % 256);
    NatOfByteOf(n / 256 % 256);
  }

  lemma LengthAsWritten(low: bv8, high: bv8)
    ensures LengthOf(low, high) < 0x1_0000
    ensures LengthBytes(LengthOf(low, high)) == [low, high]
  {
    hide ByteOf, NatOf;
    ByteOfNatOf(low);
    ByteOfNatOf(high);
  }

  /** On the wire a payload length below 65536 stands in bytes 1 and 2, the lower one first. */
  lemma LengthOnWire(p: Packet)
    requires |p.payload| <= 0xFFFF
    ensures |Print(p)| > 2 && NatOf(Print(p)[1]) + 256 * NatOf(Print(p)[2]) == |p.payload|
  {
    hide NatOf, LengthBytes, Print;
    PrintedParts(p, []);
    assert Print(p) + [] == Print(p);
    LengthAsRead(|p.payload|);
  }

  lemma PrintedParts(p: Packet, t: seq<bv8>)
    ensures var data := Print(p) + t;
            && |Body(p)| == HEADER_SIZE + |p.payload| && |Print(p)| == |Body(p)| + CRC_SIZE
            && data[0] == CommandByte(p.command)
            && [data[1], data[2]] == LengthBytes(|p.payload|)
            && data[3..7] == Bytes(p.sequence)
            && data[7..|Body(p)|] == p.payload
            && data[..|Body(p)|] == Body(p)
            && data[|Body(p)|..|Body(p)| + 4] == Bytes(Crc(Body(p)))
  {
    hide CommandByte, LengthBytes, Bytes, Crc;
  }

  /**
   * A packet followed by anything parses back to the packet exactly if its payload has at most 65535 bytes:
   * a longer one is printed with a truncated length. (The documented maximum of 4096 is not enforced.)
   */
  lemma RoundTripIff(p: Packet, t: seq<bv8>)
    ensures Parse(Print(p) + t) == Ok(p) <==> |p.payload| <= 0xFFFF
  {
    hide CommandByte, CommandOf, LengthBytes, LengthOf, Bytes, Word, Crc, Print, Body;
    var data := Print(p) + t;
    PrintedParts(p, t);
    CommandRoundTrip(p.command, 0);
    LengthAsRead(|p.payload|);
    if |p.payload| <= 0xFFFF {
      WordOfBytes(p.sequence);
      WordOfBytes(Crc(Body(p)));
    } else if Parse(data).Ok? {
      assert |Parse(data).value.payload| == LengthOf(data[1], data[2]);
    }
  }

  lemma HeaderAndPayload(data: seq<bv8>, n: nat)
    requires HEADER_SIZE <= n <= |data|
    ensures data[..n] == [data[0]] + [data[1], data[2]] + data[3..7] + data[7..n]
  {
  }

  /** A buffer parses to `p` exactly if it begins with the bytes of `p`, whose payload is not too long. */
  lemma ParsesIff(data: seq<bv8>, p: Packet)
    ensures Parse(data) == Ok(p) <==> |p.payload| <= 0xFFFF && Print(p) <= data
  {
    hide CommandByte, CommandOf, LengthBytes, LengthOf, Bytes, Word, Crc;
    if Parse(data) == Ok(p) {
      var len := LengthOf(data[1], data[2]);
      var crcOffset := HEADER_SIZE + len;
      LengthAsWritten(data[1], data[2]);
      CommandRoundTrip(p.command, data[0]);
      BytesOfWord(data[3..7]);
      BytesOfWord(data[crcOffset..crcOffset + 4]);
      HeaderAndPayload(data, crcOffset);
      assert data[..crcOffset] == Body(p);
      assert data[..crcOffset + 4] == Print(p);
    }
    if |p.payload| <= 0xFFFF && Print(p) <= data {
      assert data == Print(p) + data[|Print(p)|..];
      RoundTripIff(p, data[|Print(p)|..]);
    }
  }

  /** The payload of an accepted buffer is as long as bytes 1 and 2 say, the lower one first. */
  lemma AcceptedLength(data: seq<bv8>, p: Packet)
    requires Parse(data) == Ok(p)
    ensures |data| > 2 && |p.payload| == NatOf(data[1]) + 256 * NatOf(data[2])
  {
    hide NatOf, Parse, Print;
    ParsesIff(data, p);
    LengthOnWire(p);
  }

  /**
   * A parsed frame that is changed inside some 32 consecutive bits, leaving the length field alone, is rejected,
   * whatever the same burst changes after the frame.
   */
  lemma BurstIsRejected(data: seq<bv8>, p: Packet, data': seq<bv8>, w: nat)
    requires Parse(data) == Ok(p) && |data'| == |data|
    requires BurstApart(BitsOf(data), BitsOf(data'), w)
    requires |Print(p)| <= |data| ==> data'[..|Print(p)|] != data[..|Print(p)|]
    requires data'[1] == data[1] && data'[2] == data[2]
    ensures Parse(data').Err?
  {
    hide CommandByte, CommandOf, LengthBytes, LengthOf, Bytes, Word, Crc, Print, Body, Parse, BitsOf, Checked;
    ParsesIff(data, p);
    if Parse(data').Ok? {
      var p' := Parse(data').value;
      ParsesIff(data', p');
      PrintSize(p);
      SameSize(data, p, data', p');
      var n := |Print(p)|;
      var m, m' := data[..n], data'[..n];
      assert m == Print(p) && m' == Print(p');
      PrintIsChecked(p);
      PrintIsChecked(p');
      BitsOfPrefix(data, n);
      BitsOfPrefix(data', n);
      BurstIsCaught(m, m', w);
    }
  }

  lemma PrintSize(p: Packet)
    ensures |Print(p)| == HEADER_SIZE + |p.payload| + CRC_SIZE
  {
    hide CommandByte, LengthBytes, Bytes, Crc;
  }

  lemma SameSize(data: seq<bv8>, p: Packet, data': seq<bv8>, p': Packet)
    requires |p.payload| <= 0xFFFF && |p'.payload| <= 0xFFFF && Print(p) <= data && Print(p') <= data'
    requires |data| > 2 && |data'| > 2 && data'[1] == data[1] && data'[2] == data[2]
    ensures |Print(p)| == |Print(p')|
  {
    hide CommandByte, LengthBytes, LengthOf, Bytes, Crc, Print, Body;
    PrintedParts(p, data[|Print(p)|..]);
    PrintedParts(p', data'[|Print(p')|..]);
    assert data == Print(p) + data[|Print(p)|..];
    assert data' == Print(p') + data'[|Print(p')|..];
    LengthAsRead(|p.payload|);
    LengthAsRead(|p'.payload|);
  }

  lemma PrintIsChecked(p: Packet)
    ensures Checked(Print(p))
  {
    hide Body, Bytes, Crc;
    assert Print(p)[..|Print(p)| - 4] == Body(p);
  }

  // ------------------------------------------------------------------------------------------
  // Scattered bit errors
  // ------------------------------------------------------------------------------------------

  /** If a frame and its changed form are both accepted, their printed parts have one length and differ as they do. */
  lemma ErrorsInFrame(data: seq<bv8>, p: Packet, data': seq<bv8>, p': Packet, errors: set<nat>)
    requires Parse(data) == Ok(p) && Parse(data') == Ok(p') && |data'| == |data|
    requires DifferAt(BitsOf(data), BitsOf(data'), errors)
    requires |data| > 2 ==> data'[1] == data[1] && data'[2] == data[2]
    ensures |Print(p)| == |Print(p')| <= |data| && |Print(p)| <= 0xFFFF + HEADER_SIZE + CRC_SIZE
    ensures Checked(Print(p)) && Checked(Print(p'))
    ensures forall i: nat :: i < 8 * |Print(p)| ==> (BitsOf(Print(p))[i] != BitsOf(Print(p'))[i] <==> i in errors)
  {
    hide CommandByte, CommandOf, LengthBytes, LengthOf, Bytes, Word, Crc, Print, Body, Parse, BitsOf, Checked;
    ParsesIff(data, p);
    ParsesIff(data', p');
    PrintSize(p);
    SameSize(data, p, data', p');
    PrintIsChecked(p);
    PrintIsChecked(p');
    var n := |Print(p)|;
    assert data[..n] == Print(p) && data'[..n] == Print(p');
    BitsOfPrefix(data, n);
    BitsOfPrefix(data', n);
  }

  /** One or two wrong bits in a frame, outside the length field, are always noticed. */
  lemma TwoBitsAreRejected(data: seq<bv8>, p: Packet, data': seq<bv8>, i: nat, j: nat)
    requires Parse(data) == Ok(p) && |data'| == |data| && i <= j && i < 8 * |Print(p)|
    requires DifferAt(BitsOf(data), BitsOf(data'), {i, j})
    requires |data| > 2 ==> data'[1] == data[1] && data'[2] == data[2]
    ensures Parse(data').Err?
  {
    hide Print, Parse, BitsOf, Checked, DifferAt;
    if Parse(data').Ok? {
      var p' := Parse(data').value;
      ErrorsInFrame(data, p, data', p', {i, j});
      OneOrTwo(Print(p), Print(p'), i, j);
    }
  }

  /** A frame changed in one or two bits no longer carries its own check value. */
  lemma OneOrTwo(m: seq<bv8>, m': seq<bv8>, i: nat, j: nat)
    requires Checked(m) && |m| == |m'| && 8 * |m| <= PERIOD && i <= j && i < 8 * |m|
    requires forall k: nat :: k < 8 * |m| ==> (BitsOf(m)[k] != BitsOf(m')[k] <==> k in {i, j})
    ensures !Checked(m')
  {
    hide Checked, BitsOf;
    if i < j < 8 * |m| {
      TwoBitsUnnoticedIff(m, m', i, j);
    } else if Checked(m') {
      forall k: nat | k < 8 * |m| && !(i <= k < i + 32)
        ensures BitsOf(m)[k] == BitsOf(m')[k]
      {
        assert k !in {i, j};
      }
      assert BitsOf(m)[i] != BitsOf(m')[i];
      BurstIsCaught(m, m', i);
    }
  }

  /**
   * Three wrong bits can go unnoticed: in every accepted frame of more than 11454 bytes, these three bits after the
   * length field turn it into another accepted frame.
   */
  lemma ThreeBitsAreAccepted(data: seq<bv8>, p: Packet, u: nat)
    requires Parse(data) == Ok(p) && 3 <= u && u + 11454 < |Print(p)|
    ensures |Print(p)| <= |data| && Parse(FlipThree(data, u)).Ok? && Parse(FlipThree(data, u)) != Ok(p)
    ensures DifferAt(BitsOf(data), BitsOf(FlipThree(data, u)), {8 * u, 8 * u + 49961, 8 * u + 91639})
  {
    hide Print, Parse, BitsOf, DifferAt, Checked;
    ParsesIff(data, p);
    PrintSize(p);
    var n, m := |Print(p)|, Print(p);
    assert data[..n] == m;
    var data' := FlipThree(data, u);
    PrintIsChecked(p);
    ThreeBitsUnnoticed(m, u);
    FlippedBits(data, u);
    FlippedPrefix(data, n, u);
    hide FlipThree;
    FrameLength(data, p);
    assert data'[..3][0] == data[..3][0] && data'[..3][1] == data[..3][1] && data'[..3][2] == data[..3][2];
    AcceptedIfChecked(data', n);
    if Parse(data') == Ok(p) {
      ParsesIff(data', p);
    }
  }

  lemma FlippedPrefix(data: seq<bv8>, n: nat, u: nat)
    requires 3 <= u && u + 11454 < n <= |data|
    ensures FlipThree(data, u)[..n] == FlipThree(data[..n], u) && FlipThree(data, u)[..3] == data[..3]
  {
  }

  lemma FrameLength(data: seq<bv8>, p: Packet)
    requires Parse(data) == Ok(p)
    ensures |data| >= 11 && CommandOf(data[0]).Some?
    ensures |Print(p)| == HEADER_SIZE + LengthOf(data[1], data[2]) + CRC_SIZE
  {
    hide CommandByte, CommandOf, LengthBytes, LengthOf, Bytes, Word, Crc;
    PrintedParts(p, []);
  }

  /** A frame of known command and right length is accepted if it carries its own check value. */
  lemma AcceptedIfChecked(data: seq<bv8>, n: nat)
    requires 11 <= n <= |data| && CommandOf(data[0]).Some?
    requires n == HEADER_SIZE + LengthOf(data[1], data[2]) + CRC_SIZE && Checked(data[..n])
    ensures Parse(data).Ok?
  {
    hide CommandOf, LengthOf, Bytes, Word, Crc;
    var m := data[..n];
    assert m[..n - 4] == data[..n - 4] && m[n - 4..] == data[n - 4..n];
    WordOfBytes(Crc(m[..n - 4]));
  }
}
