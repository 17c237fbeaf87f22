/**
 * The frame accumulator of `callwhite_mcu/src/cobs_framing.c`: bytes from the UART are collected until the
 * delimiter 0x00, which no encoded frame contains.
 */
module CobsAccumulator {
  import opened Cobs
  import opened Prelude

  const MAX_FRAME_SIZE: nat := 2048
  const DELIMITER: Byte := 0

  // ------------------------------------------------------------------------------------------
  // The accumulator on values
  // ------------------------------------------------------------------------------------------

  /** What one byte does: the bytes then pending, the frame completed (empty if none), and whether it overflowed. */
  datatype Fed = Fed(pending: seq<Byte>, frame: seq<Byte>, overflow: bool)

  function FeedOne(pending: seq<Byte>, byte: Byte): Fed {
    if byte == DELIMITER then Fed([], pending, false)
    else if |pending| >= MAX_FRAME_SIZE then Fed([], [], true)
    else Fed(pending + [byte], [], false)
  }

  datatype Received = Received(pending: seq<Byte>, frames: seq<seq<Byte>>, overflows: nat)

  function Collect(r: Received, o: Fed): Received {
    Received(o.pending,
             if o.frame == [] then r.frames else r.frames + [o.frame],
             if o.overflow then r.overflows + 1 else r.overflows)
  }

  /** Feeding a stream of bytes. */
  function Feed(r: Received, bytes: seq<Byte>): Received {
    if bytes == [] then r
    else
      var before := Feed(r, bytes[..|bytes| - 1]);
      Collect(before, FeedOne(before.pending, bytes[|bytes| - 1]))
  }

  datatype FeedStatus = FeedOk | FeedOverflow

  class Accumulator {
    const buffer: array<Byte>
    var count: nat

    ghost predicate Valid()
      reads this, buffer
    {
      buffer.Length == MAX_FRAME_SIZE && count <= MAX_FRAME_SIZE
    }

    ghost function Pending(): seq<Byte>
      reads this, buffer
      requires Valid()
    {
      buffer[..count]
    }

    constructor ()
      ensures Valid() && fresh(buffer) && Pending() == []
    {
      buffer := new Byte[MAX_FRAME_SIZE];
      count := 0;
    }

    /** A completed frame is left in `buffer[..frameLen]`; frameLen is 0 if there is none. */
    method AddByte(byte: Byte) returns (status: FeedStatus, frameLen: nat)
      requires Valid()
      modifies this, buffer
      ensures Valid() && frameLen <= MAX_FRAME_SIZE
      ensures FeedOne(old(Pending()), byte) == Fed(Pending(), buffer[..frameLen], status == FeedOverflow)
    {
      frameLen := 0;
      if byte == DELIMITER {
        if count > 0 {
          frameLen := count;
          count := 0;
        }
        return FeedOk, frameLen;
      }
      if count >= MAX_FRAME_SIZE {
        count := 0;
        return FeedOverflow, 0;
      }
      buffer[count] := byte;
      count := count + 1;
      status := FeedOk;
    }

    method Reset()
      requires Valid()
      modifies this
      ensures Valid() && Pending() == []
    {
      count := 0;
    }
  }

  // ------------------------------------------------------------------------------------------
  // What a stream of frames yields
  // ------------------------------------------------------------------------------------------

  lemma {:induction false} FeedAdd(r: Received, a: seq<Byte>, b: seq<Byte>)
    ensures Feed(r, a + b) == Feed(Feed(r, a), b)
  {
    if b == [] {
      assert a + b == a;
    } else {
      assert (a + b)[..|a + b| - 1] == a + b[..|b| - 1];
      FeedAdd(r, a, b[..|b| - 1]);
    }
  }

  lemma {:induction false} PendingBounded(r: Received, bytes: seq<Byte>)
    requires |r.pending| <= MAX_FRAME_SIZE
    ensures |Feed(r, bytes).pending| <= MAX_FRAME_SIZE
  {
    if bytes != [] {
      PendingBounded(r, bytes[..|bytes| - 1]);
    }
  }

  /** The last n bytes. */
  function Last(s: seq<Byte>, n: nat): seq<Byte>
    requires n <= |s|
  {
    s[|s| - n..]
  }

  /** How many of `n` bytes are still pending, and how often the buffer was emptied on the way. */
  function Held(n: nat): (k: nat)
    ensures k <= n && k <= MAX_FRAME_SIZE
  {
    n % (MAX_FRAME_SIZE + 1)
  }

  function Drops(n: nat): nat { n / (MAX_FRAME_SIZE + 1) }

  lemma NothingFed(r: Received)
    requires |r.pending| <= MAX_FRAME_SIZE
    ensures Last(r.pending, Held(|r.pending|)) == r.pending && Drops(|r.pending|) == 0
  {
  }

  /**
   * Bytes between delimiters, however many: each time one byte more than fits has come in, everything
   * pending is dropped, that byte included.
   */
  lemma {:induction false} FeedData(r: Received, data: seq<Byte>)
    requires |r.pending| <= MAX_FRAME_SIZE && forall i :: 0 <= i < |data| ==> data[i] != DELIMITER
    ensures var all := r.pending + data;
            Feed(r, data) == Received(Last(all, Held(|all|)), r.frames,
                                      r.overflows + Drops(|all|))
  {
    hide FeedOne, Last, Held, Drops;
    if data == [] {
      NothingFed(r);
      assert r.pending + data == r.pending;
    } else {
      var init, b := data[..|data| - 1], data[|data| - 1];
      FeedData(r, init);
      var some := r.pending + init;
      assert r.pending + data == some + [b];
      OneMore(some, b);
    }
  }

  lemma OneMore(some: seq<Byte>, b: Byte)
    requires b != DELIMITER
    ensures var n := |some|;
            FeedOne(Last(some, Held(n)), b) == Fed(Last(some + [b], Held(n + 1)), [], Drops(n + 1) != Drops(n))
    ensures 0 <= Drops(|some| + 1) - Drops(|some|) <= 1
  {
    hide Held, Drops;
    var n := |some|;
    NextCount(n);
    if Held(n) < MAX_FRAME_SIZE {
      assert Last(some, Held(n)) + [b] == Last(some + [b], Held(n) + 1);
    }
  }

  lemma NextCount(n: nat)
    ensures Held(n) < MAX_FRAME_SIZE ==> Held(n + 1) == Held(n) + 1 && Drops(n + 1) == Drops(n)
    ensures Held(n) == MAX_FRAME_SIZE ==> Held(n + 1) == 0 && Drops(n + 1) == Drops(n) + 1
  {
  }

  /** A frame of nonzero bytes followed by the delimiter, with nothing pending before. */
  lemma FeedFrame(r: Received, frame: seq<Byte>)
    requires r.pending == [] && forall i :: 0 <= i < |frame| ==> frame[i] != DELIMITER
    ensures var left := Last(frame, Held(|frame|));
            Feed(r, frame + [DELIMITER])
            == Received([], if left == [] then r.frames else r.frames + [left],
                        r.overflows + Drops(|frame|))
  {
    FeedData(r, frame);
    assert r.pending + frame == frame;
    assert (frame + [DELIMITER])[..|frame|] == frame;
  }

  /** A nonempty frame comes out as it went in, and alone, exactly if it fits into the buffer. */
  lemma FrameIntactIff(r: Received, frame: seq<Byte>)
    requires r.pending == [] && frame != [] && forall i :: 0 <= i < |frame| ==> frame[i] != DELIMITER
    ensures Feed(r, frame + [DELIMITER]) == Received([], r.frames + [frame], r.overflows) <==> |frame| <= MAX_FRAME_SIZE
  {
    FeedFrame(r, frame);
    var n := Held(|frame|);
    if |frame| <= MAX_FRAME_SIZE {
      assert Last(frame, n) == frame;
    } else {
      assert Drops(|frame|) > 0;
    }
  }

  predicate Sendable(frame: seq<Byte>) {
    1 <= |frame| <= MAX_FRAME_SIZE && forall i :: 0 <= i < |frame| ==> frame[i] != DELIMITER
  }

  /** Each frame followed by the delimiter. */
  function Stream(frames: seq<seq<Byte>>): seq<Byte> {
    if frames == [] then []
    else Stream(frames[..|frames| - 1]) + (frames[|frames| - 1] + [DELIMITER])
  }

  lemma {:induction false} StreamReceived(r: Received, frames: seq<seq<Byte>>)
    requires r.pending == [] && forall i :: 0 <= i < |frames| ==> Sendable(frames[i])
    ensures Feed(r, Stream(frames)) == Received([], r.frames + frames, r.overflows)
  {
    if frames == [] {
      assert r.frames + frames == r.frames;
    } else {
      var init, f := frames[..|frames| - 1], frames[|frames| - 1];
      StreamReceived(r, init);
      FeedAdd(r, Stream(init), f + [DELIMITER]);
      FrameIntactIff(Received([], r.frames + init, r.overflows), f);
      assert r.frames + frames == r.frames + init + [f];
    }
  }

  /**
   * After any bytes whatsoever, one delimiter is enough: every frame that follows it is received, in order,
   * after at most one frame made of what was pending.
   */
  lemma Resynchronises(garbage: seq<Byte>, frames: seq<seq<Byte>>)
    requires forall i :: 0 <= i < |frames| ==> Sendable(frames[i])
    ensures var r := Feed(Received([], [], 0), garbage);
            Feed(Received([], [], 0), garbage + [DELIMITER] + Stream(frames))
            == Received([], r.frames + (if r.pending == [] then [] else [r.pending]) + frames, r.overflows)
  {
    var start := Received([], [], 0);
    var r := Feed(start, garbage);
    FeedAdd(start, garbage + [DELIMITER], Stream(frames));
    assert (garbage + [DELIMITER])[..|garbage|] == garbage;
    var after := Feed(start, garbage + [DELIMITER]);
    assert after.pending == [] && after.frames == r.frames + (if r.pending == [] then [] else [r.pending]);
    StreamReceived(after, frames);
  }

  // ------------------------------------------------------------------------------------------
  // Encoding, framing and decoding together
  // ------------------------------------------------------------------------------------------

  function Encoded(messages: seq<seq<Byte>>): seq<seq<Byte>> {
    seq(|messages|, (i: nat) requires i < |messages| => Encode(messages[i]))
  }

  lemma EncodedIsSendable(x: seq<Byte>)
    requires |x| <= 2039
    ensures Sendable(Encode(x))
  {
    EncodeSize(x);
    forall i | 0 <= i < |Encode(x)|
      ensures Encode(x)[i] != DELIMITER
    {
      assert Encode(x)[i] in Encode(x);
    }
  }

  /**
   * Messages of at most 2039 bytes, encoded and sent one after the other, arrive as as many frames, and each
   * frame decodes to its message without the zeros directly after full blocks.
   */
  lemma MessagesArrive(messages: seq<seq<Byte>>)
    requires forall i :: 0 <= i < |messages| ==> |messages[i]| <= 2039
    ensures var r := Feed(Received([], [], 0), Stream(Encoded(messages)));
            && r.pending == [] && r.overflows == 0 && |r.frames| == |messages|
            && forall i :: 0 <= i < |messages| ==> Decode(r.frames[i]) == Ok(Kept(messages[i]))
  {
    var frames := Encoded(messages);
    forall i | 0 <= i < |frames|
      ensures Sendable(frames[i])
    {
      EncodedIsSendable(messages[i]);
    }
    StreamReceived(Received([], [], 0), frames);
    assert [] + frames == frames;
    forall i | 0 <= i < |messages|
      ensures Decode(frames[i]) == Ok(Kept(messages[i]))
    {
      RoundTrip(messages[i]);
    }
  }
}
