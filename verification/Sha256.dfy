/**
 * SHA-256 as `callwhite_mcu/src/sha256.h` computes it, byte by byte through a 64-byte buffer, and as FIPS
 * 180-4 defines it, over the blocks of the padded message.
 */
module Sha256 {
  import opened Octets

  type Bytes = seq<bv8>
  type Words = seq<bv32>

  // ------------------------------------------------------------------------------------------
  // The compression function (FIPS 180-4, sections 4.1.2, 4.2.2 and 6.2.2)
  // ------------------------------------------------------------------------------------------

  // The round constants, sixteen at a time.

  const K0: Words := [
    0x428a2f98, 0x71374491, 0xb5c0fbcf, 0xe9b5dba5, 0x3956c25b, 0x59f111f1, 0x923f82a4, 0xab1c5ed5,
    0xd807aa98, 0x12835b01, 0x243185be, 0x550c7dc3, 0x72be5d74, 0x80deb1fe, 0x9bdc06a7, 0xc19bf174]

  const K1: Words := [
    0xe49b69c1, 0xefbe4786, 0x0fc19dc6, 0x240ca1cc, 0x2de92c6f, 0x4a7484aa, 0x5cb0a9dc, 0x76f988da,
    0x983e5152, 0xa831c66d, 0xb00327c8, 0xbf597fc7, 0xc6e00bf3, 0xd5a79147, 0x06ca6351, 0x14292967]

  const K2: Words := [
    0x27b70a85, 0x2e1b2138, 0x4d2c6dfc, 0x53380d13, 0x650a7354, 0x766a0abb, 0x81c2c92e, 0x92722c85,
    0xa2bfe8a1, 0xa81a664b, 0xc24b8b70, 0xc76c51a3, 0xd192e819, 0xd6990624, 0xf40e3585, 0x106aa070]

  const K3: Words := [
    0x19a4c116, 0x1e376c08, 0x2748774c, 0x34b0bcb5, 0x391c0cb3, 0x4ed8aa4a, 0x5b9cca4f, 0x682e6ff3,
    0x748f82ee, 0x78a5636f, 0x84c87814, 0x8cc70208, 0x90befffa, 0xa4506ceb, 0xbef9a3f7, 0xc67178f2]

  const IV: Words := [
    0x6a09e667, 0xbb67ae85, 0x3c6ef372, 0xa54ff53a, 0x510e527f, 0x9b05688c, 0x1f83d9ab, 0x5be0cd19]

  function RoundConstant(i: nat): bv32
    requires i < 64
  {
    if i < 16 then K0[i] else if i < 32 then K1[i - 16] else if i < 48 then K2[i - 32] else K3[i - 48]
  }

  /** Addition of words, modulo 2^32. */
  function Add(x: bv32, y: bv32): bv32 { x + y }

  function Ch(x: bv32, y: bv32, z: bv32): bv32 { (x & y) ^ (!x & z) }

  function Maj(x: bv32, y: bv32, z: bv32): bv32 { (x & y) ^ (x & z) ^ (y & z) }

  function Ep0(x: bv32): bv32 {
    ((x >> 2) | (x << 30)) ^ ((x >> 13) | (x << 19)) ^ ((x >> 22) | (x << 10))
  }

  function Ep1(x: bv32): bv32 {
    ((x >> 6) | (x << 26)) ^ ((x >> 11) | (x << 21)) ^ ((x >> 25) | (x << 7))
  }

  function Sig0(x: bv32): bv32 {
    ((x >> 7) | (x << 25)) ^ ((x >> 18) | (x << 14)) ^ (x >> 3)
  }

  function Sig1(x: bv32): bv32 {
    ((x >> 17) | (x << 15)) ^ ((x >> 19) | (x << 13)) ^ (x >> 10)
  }

  /** The shifts of the source are the rotations of FIPS 180-4 section 4.1.2. */
  lemma ShiftsAreRotations(x: bv32)
    ensures Ep0(x) == x.RotateRight(2) ^ x.RotateRight(13) ^ x.RotateRight(22)
    ensures Ep1(x) == x.RotateRight(6) ^ x.RotateRight(11) ^ x.RotateRight(25)
    ensures Sig0(x) == x.RotateRight(7) ^ x.RotateRight(18) ^ (x >> 3)
    ensures Sig1(x) == x.RotateRight(17) ^ x.RotateRight(19) ^ (x >> 10)
  {
  }

  function BigEndianWord(b0: bv8, b1: bv8, b2: bv8, b3: bv8): bv32 {
    ((b0 as bv32) << 24) | ((b1 as bv32) << 16) | ((b2 as bv32) << 8) | (b3 as bv32)
  }

  /** The four terms of the message schedule. */
  function Mix(w2: bv32, w7: bv32, w15: bv32, w16: bv32): bv32 {
    Add(Add(Add(Sig1(w2), w7), Sig0(w15)), w16)
  }

  /** Word `t` of the message schedule of a block. */
  function Schedule(block: Bytes, t: nat): bv32
    requires |block| == 64
  {
    if t < 16 then BigEndianWord(block[4 * t], block[4 * t + 1], block[4 * t + 2], block[4 * t + 3])
    else Mix(Schedule(block, t - 2), Schedule(block, t - 7), Schedule(block, t - 15), Schedule(block, t - 16))
  }

  lemma ScheduleStart(block: Bytes, t: nat)
    requires |block| == 64 && t < 16
    ensures Schedule(block, t)
         == BigEndianWord(block[t * 4 + 0], block[t * 4 + 1], block[t * 4 + 2], block[t * 4 + 3])
  {
  }

  lemma ScheduleNext(block: Bytes, t: nat)
    requires |block| == 64 && t >= 16
    ensures Schedule(block, t)
         == Mix(Schedule(block, t - 2), Schedule(block, t - 7), Schedule(block, t - 15), Schedule(block, t - 16))
  {
  }

  /** The eight working variables. */
  datatype Work = Work(a: bv32, b: bv32, c: bv32, d: bv32, e: bv32, f: bv32, g: bv32, h: bv32)

  function Round(v: Work, k: bv32, w: bv32): Work {
    var t1 := Add(Add(Add(Add(v.h, Ep1(v.e)), Ch(v.e, v.f, v.g)), k), w);
    var t2 := Add(Ep0(v.a), Maj(v.a, v.b, v.c));
    Work(Add(t1, t2), v.a, v.b, v.c, Add(v.d, t1), v.e, v.f, v.g)
  }

  function Rounds(v: Work, block: Bytes, n: nat): Work
    requires |block| == 64 && n <= 64
  {
    if n == 0 then v else Round(Rounds(v, block, n - 1), RoundConstant(n - 1), Schedule(block, n - 1))
  }

  function WorkOf(s: Words): Work
    requires |s| == 8
  {
    Work(s[0], s[1], s[2], s[3], s[4], s[5], s[6], s[7])
  }

  function AddWork(s: Words, v: Work): (r: Words)
    requires |s| == 8
    ensures |r| == 8
  {
    [Add(s[0], v.a), Add(s[1], v.b), Add(s[2], v.c), Add(s[3], v.d),
     Add(s[4], v.e), Add(s[5], v.f), Add(s[6], v.g), Add(s[7], v.h)]
  }

  function Compress(s: Words, block: Bytes): (r: Words)
    requires |s| == 8 && |block| == 64
    ensures |r| == 8
  {
    AddWork(s, Rounds(WorkOf(s), block, 64))
  }

  // ------------------------------------------------------------------------------------------
  // The standard: padding, then the blocks in order (FIPS 180-4, sections 5.1.1, 5.2.1, 5.3.3)
  // ------------------------------------------------------------------------------------------

  function Zeros(n: nat): (z: Bytes)
    ensures |z| == n
  {
    seq(n, _ => 0)
  }

  /** The smallest number of zero bytes that leaves room for exactly the length in the last block. */
  function PadLength(n: nat): (k: nat)
    ensures k < 64
  {
    (119 - n % 64) % 64
  }

  function PaddedLength(n: nat): (l: nat)
    ensures l % 64 == 0
  {
    n + 1 + PadLength(n) + 8
  }

  /** A 64-bit length, highest byte first. */
  function LengthBytes(bits: nat): (b: Bytes)
    ensures |b| == 8
  {
    BigEndian(bits, 8)
  }

  /** The eight bytes spell the number, as FIPS 180-4 section 5.1.1 asks. */
  lemma LengthBytesSpell(bits: nat)
    requires bits < TWO_64
    ensures Value(LengthBytes(bits)) == bits
  {
    FitsIn64(bits);
    ValueOfBigEndian(bits, 8);
  }

  lemma LengthByteAt(bits: nat, k: nat)
    requires k < 8
    ensures LengthBytes(bits)[k] == ByteOf(Shift(bits, 7 - k) % 256)
  {
    hide ByteOf, Shift, BigEndian;
    BigEndianAt(bits, 8, k);
  }

  const TWO_64: nat := 0x1_0000_0000_0000_0000

  /** The length of a message in bits, as the 64-bit counter holds it. */
  function BitCount(n: nat): nat {
    8 * n % TWO_64
  }

  function Padded(m: Bytes): (p: Bytes)
    ensures |p| == PaddedLength(|m|)
  {
    m + [0x80] + Zeros(PadLength(|m|)) + LengthBytes(BitCount(|m|))
  }

  function HashBlocks(s: Words, data: Bytes): (r: Words)
    requires |s| == 8 && |data| % 64 == 0
    ensures |r| == 8
  {
    if data == [] then s
    else Compress(HashBlocks(s, data[..|data| - 64]), data[|data| - 64..])
  }

  function WordBytes(w: bv32): (b: Bytes)
    ensures |b| == 4
  {
    [((w >> 24) & 0xFF) as bv8, ((w >> 16) & 0xFF) as bv8, ((w >> 8) & 0xFF) as bv8, (w & 0xFF) as bv8]
  }

  function AllWordBytes(s: Words): (b: Bytes)
    ensures |b| == 4 * |s|
  {
    if s == [] then [] else AllWordBytes(s[..|s| - 1]) + WordBytes(s[|s| - 1])
  }

  function Digest(m: Bytes): Bytes {
    AllWordBytes(HashBlocks(IV, Padded(m)))
  }

  // ------------------------------------------------------------------------------------------
  // The streaming computation on values
  // ------------------------------------------------------------------------------------------

  datatype Stream = Stream(state: Words, pending: Bytes, bits: nat)

  ghost predicate WellFormed(c: Stream) {
    |c.state| == 8 && |c.pending| < 64
  }

  function Start(): (c: Stream)
    ensures WellFormed(c)
  {
    Stream(IV, [], 0)
  }

  function FeedByte(c: Stream, b: bv8): (r: Stream)
    requires WellFormed(c)
    ensures WellFormed(r)
  {
    var pending := c.pending + [b];
    var bits := (c.bits + 8) % TWO_64;
    if |pending| == 64 then Stream(Compress(c.state, pending), [], bits) else Stream(c.state, pending, bits)
  }

  function Feed(c: Stream, data: Bytes): (r: Stream)
    requires WellFormed(c)
    ensures WellFormed(r)
  {
    if data == [] then c else FeedByte(Feed(c, data[..|data| - 1]), data[|data| - 1])
  }

  /** The last block or two, and the digest. */
  function Finish(c: Stream): Bytes
    requires WellFormed(c)
  {
    var p := c.pending + [0x80];
    var (s, q) := if |p| > 56 then (Compress(c.state, p + Zeros(64 - |p|)), []) else (c.state, p);
    AllWordBytes(Compress(s, q + Zeros(56 - |q|) + LengthBytes(c.bits)))
  }

  // ------------------------------------------------------------------------------------------
  // The streaming computation refines the standard
  // ------------------------------------------------------------------------------------------

  /** How much of a message of `n` bytes is in complete blocks. */
  function Whole(n: nat): (w: nat)
    ensures w <= n < w + 64 && w % 64 == 0
  {
    n - n % 64
  }

  /** The stream state after the bytes of `m`. */
  ghost predicate StandsFor(c: Stream, m: Bytes) {
    && c.state == HashBlocks(IV, m[..Whole(|m|)])
    && c.pending == m[Whole(|m|)..]
    && c.bits == BitCount(|m|)
  }

  lemma StartStands()
    ensures StandsFor(Start(), [])
  {
  }

  lemma OneMoreBlock(s: Words, data: Bytes, block: Bytes)
    requires |s| == 8 && |data| % 64 == 0 && |block| == 64
    ensures HashBlocks(s, data + block) == Compress(HashBlocks(s, data), block)
  {
    hide Compress;
    assert (data + block)[..|data + block| - 64] == data;
    assert (data + block)[|data + block| - 64..] == block;
  }

  lemma WholeNext(n: nat)
    ensures n - Whole(n) < 63 ==> Whole(n + 1) == Whole(n)
    ensures n - Whole(n) == 63 ==> Whole(n + 1) == n + 1
  {
    assert n % 64 < 63 ==> (n + 1) % 64 == n % 64 + 1;
    assert n % 64 == 63 ==> (n + 1) % 64 == 0;
  }

  lemma BitCountNext(n: nat)
    ensures BitCount(n + 1) == (BitCount(n) + 8) % TWO_64
  {
    var q := 8 * n / TWO_64;
    assert 8 * n == TWO_64 * q + BitCount(n);
    assert 8 * (n + 1) == TWO_64 * q + (BitCount(n) + 8);
  }

  lemma FeedByteStands(c: Stream, m: Bytes, b: bv8)
    requires WellFormed(c) && StandsFor(c, m)
    ensures StandsFor(FeedByte(c, b), m + [b])
  {
    hide Compress, HashBlocks;
    var n, w := |m|, Whole(|m|);
    WholeNext(n);
    BitCountNext(n);
    var pending := c.pending + [b];
    if |pending| == 64 {
      assert m[..w] + pending == m + [b];
      assert (m + [b])[..n + 1] == m + [b];
      OneMoreBlock(IV, m[..w], pending);
    } else {
      assert (m + [b])[..w] == m[..w] && (m + [b])[w..] == pending;
    }
  }

  lemma {:induction false} FeedStands(c: Stream, m: Bytes, data: Bytes)
    requires WellFormed(c) && StandsFor(c, m)
    ensures StandsFor(Feed(c, data), m + data)
  {
    hide StandsFor, FeedByte;
    if data == [] {
      assert m + data == m;
    } else {
      var init, b := data[..|data| - 1], data[|data| - 1];
      FeedStands(c, m, init);
      FeedByteStands(Feed(c, init), m + init, b);
      assert m + init + [b] == m + data;
    }
  }

  /** Padding that fits into the current block. */
  lemma PadShort(m: Bytes)
    requires |m| - Whole(|m|) < 56
    ensures var p := m[Whole(|m|)..] + [0x80];
            Padded(m) == m[..Whole(|m|)] + (p + Zeros(56 - |p|) + LengthBytes(BitCount(|m|)))
  {
    hide LengthBytes, BitCount;
    assert PadLength(|m|) == 55 - (|m| - Whole(|m|));
  }

  /** Padding that needs one more block. */
  lemma PadLong(m: Bytes)
    requires |m| - Whole(|m|) >= 56
    ensures var p := m[Whole(|m|)..] + [0x80];
            Padded(m) == m[..Whole(|m|)] + (p + Zeros(64 - |p|)) + ([] + Zeros(56) + LengthBytes(BitCount(|m|)))
  {
    hide LengthBytes, BitCount;
    assert PadLength(|m|) == 119 - (|m| - Whole(|m|));
  }

  lemma FinishStands(c: Stream, m: Bytes)
    requires WellFormed(c) && StandsFor(c, m)
    ensures Finish(c) == Digest(m)
  {
    hide Compress, HashBlocks, Padded, LengthBytes, BitCount, AllWordBytes;
    var front, p, len := m[..Whole(|m|)], c.pending + [0x80], LengthBytes(BitCount(|m|));
    if |p| <= 56 {
      PadShort(m);
      OneMoreBlock(IV, front, p + Zeros(56 - |p|) + len);
    } else {
      PadLong(m);
      OneMoreBlock(IV, front, p + Zeros(64 - |p|));
      OneMoreBlock(IV, front + (p + Zeros(64 - |p|)), [] + Zeros(56) + len);
    }
  }

  /** The pieces put together. */
  function Joined(pieces: seq<Bytes>): Bytes {
    if pieces == [] then [] else Joined(pieces[..|pieces| - 1]) + pieces[|pieces| - 1]
  }

  function FeedPieces(c: Stream, pieces: seq<Bytes>): (r: Stream)
    requires WellFormed(c)
    ensures WellFormed(r)
  {
    if pieces == [] then c else Feed(FeedPieces(c, pieces[..|pieces| - 1]), pieces[|pieces| - 1])
  }

  lemma {:induction false} FeedPiecesStands(pieces: seq<Bytes>)
    ensures StandsFor(FeedPieces(Start(), pieces), Joined(pieces))
  {
    hide StandsFor, Feed, Start;
    if pieces == [] {
      StartStands();
    } else {
      var init := pieces[..|pieces| - 1];
      FeedPiecesStands(init);
      FeedStands(FeedPieces(Start(), init), Joined(init), pieces[|pieces| - 1]);
    }
  }

  /** However a message is cut into pieces, feeding them gives the digest of the standard. */
  lemma StreamingIsStandard(pieces: seq<Bytes>)
    ensures Finish(FeedPieces(Start(), pieces)) == Digest(Joined(pieces))
  {
    hide StandsFor, Finish, Digest;
    FeedPiecesStands(pieces);
    FinishStands(FeedPieces(Start(), pieces), Joined(pieces));
  }

  // ------------------------------------------------------------------------------------------
  // The context and its operations, in place
  // ------------------------------------------------------------------------------------------

  class Context {
    const state: array<bv32>
    const buffer: array<bv8>
    var bitcount: nat
    var buflen: nat

    ghost predicate Valid()
      reads this
    {
      state.Length == 8 && buffer.Length == 64 && buflen < 64 && bitcount < TWO_64
    }

    ghost function View(): (c: Stream)
      requires Valid()
      reads this, state, buffer
      ensures WellFormed(c)
    {
      Stream(state[..], buffer[..buflen], bitcount)
    }

    /** A context before `Init`: its memory may hold anything. */
    constructor ()
      ensures Valid() && fresh(state) && fresh(buffer)
    {
      state := new bv32[8];
      buffer := new bv8[64];
      bitcount := 0;
      buflen := 0;
    }

    method Init()
      requires state.Length == 8 && buffer.Length == 64
      modifies this, state
      ensures Valid() && View() == Start()
    {
      state[0] := 0x6a09e667;
      state[1] := 0xbb67ae85;
      state[2] := 0x3c6ef372;
      state[3] := 0xa54ff53a;
      state[4] := 0x510e527f;
      state[5] := 0x9b05688c;
      state[6] := 0x1f83d9ab;
      state[7] := 0x5be0cd19;
      bitcount := 0;
      buflen := 0;
      assert state[..] == IV;
    }

    /** The message schedule of a block, in a work array. */
    method Expand(block: array<bv8>) returns (w: array<bv32>)
      requires block.Length == 64
      ensures fresh(w) && w.Length == 64
      ensures forall t: nat | t < 64 :: w[t] == Schedule(block[..], t)
    {
      hide Mix, BigEndianWord, Schedule;
      ghost var b := block[..];
      w := new bv32[64];
      for i := 0 to 16
        invariant forall t: nat | t < i :: w[t] == Schedule(b, t)
      {
        ScheduleStart(b, i);
        w[i] := BigEndianWord(block[i * 4 + 0], block[i * 4 + 1], block[i * 4 + 2], block[i * 4 + 3]);
      }
      for i := 16 to 64
        invariant forall t: nat | t < i :: w[t] == Schedule(b, t)
      {
        ScheduleNext(b, i);
        w[i] := Mix(w[i - 2], w[i - 7], w[i - 15], w[i - 16]);
      }
    }

    /** The 64 rounds over the working variables. */
    method RunRounds(block: array<bv8>, w: array<bv32>) returns (v: Work)
      requires state.Length == 8 && block.Length == 64 && w.Length == 64
      requires forall t: nat | t < 64 :: w[t] == Schedule(block[..], t)
      ensures v == Rounds(WorkOf(state[..]), block[..], 64)
    {
      hide Add, RoundConstant, Schedule, WorkOf, Ep0, Ep1, Ch, Maj;
      ghost var start := WorkOf(state[..]);
      assert start == Work(state[0], state[1], state[2], state[3], state[4], state[5], state[6], state[7]) by {
        WorkOfArray();
      }
      var a, b, c, d := state[0], state[1], state[2], state[3];
      var e, f, g, h := state[4], state[5], state[6], state[7];
      for i := 0 to 64
        invariant Work(a, b, c, d, e, f, g, h) == Rounds(start, block[..], i)
      {
        var t1 := Add(Add(Add(Add(h, Ep1(e)), Ch(e, f, g)), RoundConstant(i)), w[i]);
        var t2 := Add(Ep0(a), Maj(a, b, c));
        h := g;
        g := f;
        f := e;
        e := Add(d, t1);
        d := c;
        c := b;
        b := a;
        a := Add(t1, t2);
      }
      v := Work(a, b, c, d, e, f, g, h);
    }

    lemma WorkOfArray()
      requires state.Length == 8
      ensures WorkOf(state[..])
           == Work(state[0], state[1], state[2], state[3], state[4], state[5], state[6], state[7])
    {
    }

    method Transform(block: array<bv8>)
      requires state.Length == 8 && block.Length == 64
      modifies state
      ensures state[..] == Compress(old(state[..]), block[..])
    {
      hide Add, Schedule, Rounds, WorkOf;
      var w := Expand(block);
      var v := RunRounds(block, w);
      AddBack(v);
    }

    method AddBack(v: Work)
      requires state.Length == 8
      modifies state
      ensures state[..] == AddWork(old(state[..]), v)
    {
      hide Add;
      state[0], state[1], state[2], state[3], state[4], state[5], state[6], state[7] :=
        Add(state[0], v.a), Add(state[1], v.b), Add(state[2], v.c), Add(state[3], v.d),
        Add(state[4], v.e), Add(state[5], v.f), Add(state[6], v.g), Add(state[7], v.h);
    }

    method Update(data: seq<bv8>)
      requires Valid()
      modifies this, state, buffer
      ensures Valid() && View() == Feed(old(View()), data)
    {
      hide Compress, BitCount;
      for i := 0 to |data|
        invariant Valid() && View() == Feed(old(View()), data[..i])
      {
        ghost var before := View();
        buffer[buflen] := data[i];
        buflen := buflen + 1;
        bitcount := (bitcount + 8) % TWO_64;
        assert buffer[..buflen] == before.pending + [data[i]];
        if buflen == 64 {
          assert buffer[..] == buffer[..buflen];
          Transform(buffer);
          buflen := 0;
        }
        assert View() == FeedByte(before, data[i]);
        assert data[..i + 1][..|data[..i + 1]| - 1] == data[..i];
      }
      assert data[..|data|] == data;
    }

    /** Zero bytes up to position `n` of the buffer. */
    method PadTo(n: nat)
      requires buffer.Length == 64 && buflen <= n <= 64
      modifies this`buflen, buffer
      ensures buflen == n && buffer[..n] == old(buffer[..buflen]) + Zeros(n - old(buflen))
    {
      while buflen < n
        invariant old(buflen) <= buflen <= n
        invariant buffer[..buflen] == old(buffer[..buflen]) + Zeros(buflen - old(buflen))
      {
        buffer[buflen] := 0;
        buflen := buflen + 1;
      }
    }

    method PutLength()
      requires buffer.Length == 64
      modifies buffer
      ensures buffer[..] == old(buffer[..56]) + LengthBytes(bitcount)
    {
      hide LengthBytes, ByteOf, Shift;
      ghost var len := LengthBytes(bitcount);
      forall k: nat | k < 8
        ensures len[k] == ByteOf(Shift(bitcount, 7 - k) % 256)
      {
        LengthByteAt(bitcount, k);
      }
      buffer[56], buffer[57], buffer[58], buffer[59], buffer[60], buffer[61], buffer[62], buffer[63] :=
        ByteOf(Shift(bitcount, 7) % 256), ByteOf(Shift(bitcount, 6) % 256), ByteOf(Shift(bitcount, 5) % 256),
        ByteOf(Shift(bitcount, 4) % 256), ByteOf(Shift(bitcount, 3) % 256), ByteOf(Shift(bitcount, 2) % 256),
        ByteOf(Shift(bitcount, 1) % 256), ByteOf(Shift(bitcount, 0) % 256);
      assert buffer[56..] == len;
    }

    /** The digest bytes from the state words. */
    method PutDigest(hash: array<bv8>)
      requires state.Length == 8 && hash.Length == 32
      modifies hash
      ensures hash[..] == AllWordBytes(state[..])
    {
      hide WordBytes;
      for i := 0 to 8
        invariant hash[..4 * i] == AllWordBytes(state[..i])
      {
        PutWord(hash, i, state[i]);
        assert hash[..4 * (i + 1)] == hash[..4 * i] + WordBytes(state[i]);
        assert state[..i + 1][..i] == state[..i];
      }
      assert hash[..32] == hash[..] && state[..8] == state[..];
    }

    static method PutWord(hash: array<bv8>, i: nat, w: bv32)
      requires hash.Length == 32 && i < 8
      modifies hash
      ensures hash[..4 * i] == old(hash[..4 * i]) && hash[4 * i..4 * i + 4] == WordBytes(w)
      ensures hash[4 * i + 4..] == old(hash[4 * i + 4..])
    {
      hide WordBytes;
      ghost var was := hash[..];
      var bytes := WordBytes(w);
      hash[i * 4 + 0] := bytes[0];
      hash[i * 4 + 1] := bytes[1];
      hash[i * 4 + 2] := bytes[2];
      hash[i * 4 + 3] := bytes[3];
    }

    method Final(hash: array<bv8>)
      requires Valid() && hash.Length == 32 && hash != buffer
      modifies this, state, buffer, hash
      ensures hash[..] == Finish(old(View()))
      ensures Valid() && View() == Stream(seq(8, _ => 0), [], 0) && buffer[..] == Zeros(64)
    {
      hide Compress, LengthBytes, AllWordBytes, BitCount;
      ghost var c := View();
      ghost var p := c.pending + [0x80];
      buffer[buflen] := 0x80;
      buflen := buflen + 1;
      assert buffer[..buflen] == p;
      if buflen > 56 {
        PadTo(64);
        assert buffer[..] == buffer[..64];
        Transform(buffer);
        buflen := 0;
      }
      PadTo(56);
      PutLength();
      Transform(buffer);
      PutDigest(hash);
      Clear();
    }

    method Clear()
      requires state.Length == 8 && buffer.Length == 64
      modifies this, state, buffer
      ensures Valid() && View() == Stream(seq(8, _ => 0), [], 0) && buffer[..] == Zeros(64)
    {
      forall i | 0 <= i < 8 {
        state[i] := 0;
      }
      forall i | 0 <= i < 64 {
        buffer[i] := 0;
      }
      bitcount, buflen := 0, 0;
    }
  }

  /** One-shot hashing computes the digest of FIPS 180-4. */
  method Hash(data: seq<bv8>, hash: array<bv8>)
    requires hash.Length == 32
    modifies hash
    ensures hash[..] == Digest(data)
  {
    hide Finish, Digest, StandsFor, Start;
    var c := new Context();
    c.Init();
    StartStands();
    FeedStands(Start(), [], data);
    assert [] + data == data;
    c.Update(data);
    FinishStands(c.View(), data);
    c.Final(hash);
  }
}
