/** The encrypted SPI frames of `callwhite_mcu/src/spi_ascon.h`: nonces from a counter, header, ciphertext, tag. */
module SpiLink {
  import opened Prelude
  import opened Octets
  import opened Ascon

  /** The length of a payload is held in one byte. */
  type Payload = b: Bytes | |b| < 256

  const MAX_PAYLOAD: nat := 64
  const TWO_32: nat := 0x1_0000_0000

  // ------------------------------------------------------------------------------------------
  // One frame
  // ------------------------------------------------------------------------------------------

  /** The frame counter, highest byte first. */
  function CounterBytes(c: nat): (b: Bytes)
    ensures |b| == 4
  {
    BigEndian(c, 4)
  }

  /** The key with the counter folded into its last four bytes. */
  function Nonce(key: Bytes, c: nat): (n: Bytes)
    requires |key| == 16
    ensures |n| == 16
  {
    key[..12] + XorBytes(key[12..], CounterBytes(c))
  }

  function AssociatedData(c: nat, cmd: bv8): Bytes {
    CounterBytes(c) + [cmd]
  }

  function FrameOf(key: Bytes, c: nat, cmd: bv8, payload: Payload): (f: Bytes)
    requires |key| == 16
    ensures |f| == |payload| + 22
  {
    var r := Encrypt(key, Nonce(key, c), AssociatedData(c, cmd), payload);
    AssociatedData(c, cmd) + [ByteOf(|payload|)] + r.ct + r.tag
  }

  /** What is sent in the clear: the payload behind its command and length. */
  function ClearFrame(cmd: bv8, payload: Payload): Bytes
  {
    [cmd, ByteOf(|payload|)] + payload
  }

  datatype Opened = Opened(counter: nat, cmd: bv8, payload: Bytes)

  /** Reading an encrypted frame with the key, by the frame format and the decryption of the standard. */
  function Open(key: Bytes, f: Bytes): Option<Opened>
    requires |key| == 16
  {
    if |f| < 22 then None
    else
      var (c, cmd, n) := (Value(f[..4]), f[4], NatOf(f[5]));
      if |f| != n + 22 then None
      else
        match Decrypt(key, Nonce(key, c), AssociatedData(c, cmd), Sealed(f[6..6 + n], f[6 + n..]))
        case None => None
        case Some(p) => Some(Opened(c, cmd, p))
  }

  lemma FrameParts(key: Bytes, c: nat, cmd: bv8, payload: Payload)
    requires |key| == 16
    ensures var f, n := FrameOf(key, c, cmd, payload), |payload|;
            var r := Encrypt(key, Nonce(key, c), AssociatedData(c, cmd), payload);
            f[..4] == CounterBytes(c) && f[4] == cmd && f[5] == ByteOf(n) && f[6..6 + n] == r.ct && f[6 + n..] == r.tag
  {
    hide CounterBytes, ByteOf, Encrypt, Nonce;
  }

  /** Bytes 12 to 15 of the nonce carry the counter, highest byte first; the others are those of the key. */
  lemma NonceBytes(key: Bytes, c: nat, k: nat)
    requires |key| == 16 && k < 16
    ensures Nonce(key, c)[k] == if k < 12 then key[k] else ByteXor(key[k], ByteOf(Shift(c, 15 - k) % 256))
  {
    hide ByteOf, Shift, ByteXor, CounterBytes;
    if k >= 12 {
      CounterByteAt(c, k - 12);
    }
  }

  /**
   * An encrypted frame, byte by byte: the counter, highest byte first, the command, the length, and what encrypting
   * the payload with the first five bytes as associated data gives.
   */
  lemma FrameLayout(key: Bytes, c: nat, cmd: bv8, payload: Payload)
    requires |key| == 16 && c < TWO_32
    ensures var f, n := FrameOf(key, c, cmd, payload), |payload|;
            && 0x100_0000 * NatOf(f[0]) + 0x1_0000 * NatOf(f[1]) + 0x100 * NatOf(f[2]) + NatOf(f[3]) == c
            && f[4] == cmd && NatOf(f[5]) == n
            && Sealed(f[6..6 + n], f[6 + n..]) == Encrypt(key, Nonce(key, c), f[..5], payload)
  {
    hide CounterBytes, ByteOf, NatOf, Encrypt, Nonce, Value, AssociatedData, FrameOf;
    var f := FrameOf(key, c, cmd, payload);
    FrameParts(key, c, cmd, payload);
    CounterBack(c);
    FourBytes(f[..4]);
    NatOfByteOf(|payload|);
    assert f[..5] == AssociatedData(c, cmd) by {
      DataIs(c, cmd);
      assert f[..5] == f[..4] + [f[4]];
    }
  }

  lemma DataIs(c: nat, cmd: bv8)
    ensures AssociatedData(c, cmd) == CounterBytes(c) + [cmd]
  {
  }

  lemma FourBytes(b: Bytes)
    requires |b| == 4
    ensures Value(b) == 0x100_0000 * NatOf(b[0]) + 0x1_0000 * NatOf(b[1]) + 0x100 * NatOf(b[2]) + NatOf(b[3])
  {
    hide NatOf;
    assert Value(b) == 256 * Value(b[..3]) + NatOf(b[3]);
    assert b[..3][..2] == b[..2] && Value(b[..3]) == 256 * Value(b[..2]) + NatOf(b[2]);
    assert b[..2][..1] == b[..1] && Value(b[..2]) == 256 * Value(b[..1]) + NatOf(b[1]);
    assert b[..1][..0] == [] && Value(b[..1]) == NatOf(b[0]);
  }

  lemma FrameFromParts(f: Bytes, a: Bytes, cmd: bv8, len: bv8, ct: Bytes, tag: Bytes)
    requires |f| == 22 + |ct| && |a| == 4
    requires f[..4] == a && f[4] == cmd && f[5] == len && f[6..6 + |ct|] == ct && f[6 + |ct|..] == tag
    ensures f == a + [cmd] + [len] + ct + tag
  {
    var n := |ct|;
    assert f == f[..4] + [f[4]] + [f[5]] + f[6..6 + n] + f[6 + n..];
  }

  lemma CounterBack(c: nat)
    requires c < TWO_32
    ensures Value(CounterBytes(c)) == c
  {
    FitsIn32(c);
    ValueOfBigEndian(c, 4);
  }

  lemma CounterForth(b: Bytes)
    requires |b| == 4
    ensures CounterBytes(Value(b)) == b && Value(b) < TWO_32
  {
    BigEndianOfValue(b);
    ValueFits(b);
    ValueBound(Value(b));
  }

  lemma ValueBound(x: nat)
    requires Shift(x, 4) == 0
    ensures x < TWO_32
  {
    var x1, x2, x3 := Shift(x, 1), Shift(x, 2), Shift(x, 3);
    assert Shift(x, 0) == x;
    assert x3 / 256 == 0 && x2 / 256 == x3 && x1 / 256 == x2 && x / 256 == x1;
    assert x3 < 256;
    assert x2 < 0x1_0000;
    assert x1 < 0x100_0000;
  }

  /** An encrypted frame opens to what was sent, and nothing but an encrypted frame opens. */
  lemma OpenIff(key: Bytes, f: Bytes, c: nat, cmd: bv8, payload: Bytes)
    requires |key| == 16
    ensures Open(key, f) == Some(Opened(c, cmd, payload))
       <==> c < TWO_32 && |payload| < 256 && f == FrameOf(key, c, cmd, payload)
  {
    hide Open, FrameOf;
    if Open(key, f) == Some(Opened(c, cmd, payload)) {
      OpenedWasSent(key, f, c, cmd, payload);
    }
    if c < TWO_32 && |payload| < 256 && f == FrameOf(key, c, cmd, payload) {
      SentOpens(key, c, cmd, payload);
    }
  }

  lemma SentOpens(key: Bytes, c: nat, cmd: bv8, payload: Payload)
    requires |key| == 16 && c < TWO_32
    ensures Open(key, FrameOf(key, c, cmd, payload)) == Some(Opened(c, cmd, payload))
  {
    hide CounterBytes, ByteOf, NatOf, Encrypt, Decrypt, Nonce, AssociatedData, FrameOf;
    var ad := AssociatedData(c, cmd);
    FrameParts(key, c, cmd, payload);
    CounterBack(c);
    NatOfByteOf(|payload|);
    DecryptIff(key, Nonce(key, c), ad, Encrypt(key, Nonce(key, c), ad, payload), payload);
  }

  lemma OpenedWasSent(key: Bytes, f: Bytes, c: nat, cmd: bv8, payload: Bytes)
    requires |key| == 16 && Open(key, f) == Some(Opened(c, cmd, payload))
    ensures c < TWO_32 && |payload| < 256 && f == FrameOf(key, c, cmd, payload)
  {
    hide CounterBytes, ByteOf, NatOf, Encrypt, Decrypt, Nonce;
    var n := NatOf(f[5]);
    CounterForth(f[..4]);
    ByteOfNatOf(f[5]);
    DecryptIff(key, Nonce(key, c), AssociatedData(c, cmd), Sealed(f[6..6 + n], f[6 + n..]), payload);
    FrameFromParts(f, CounterBytes(c), cmd, ByteOf(n), f[6..6 + n], f[6 + n..]);
  }

  // ------------------------------------------------------------------------------------------
  // Runs of the link, with initialisation and disabling among the frames
  // ------------------------------------------------------------------------------------------

  lemma XorBytesInjective(k: Bytes, a: Bytes, b: Bytes)
    requires |k| == |a| == |b| && XorBytes(k, a) == XorBytes(k, b)
    ensures a == b
  {
    hide ByteXor;
    forall i | 0 <= i < |a|
      ensures a[i] == b[i]
    {
      assert XorBytes(k, a)[i] == XorBytes(k, b)[i];
      XorByteInjective(k[i], a[i], b[i]);
    }
  }

  lemma NonceIff(key: Bytes, c: nat, d: nat)
    requires |key| == 16 && c < TWO_32 && d < TWO_32
    ensures Nonce(key, c) == Nonce(key, d) <==> c == d
  {
    hide CounterBytes, XorBytes;
    if Nonce(key, c) == Nonce(key, d) {
      assert Nonce(key, c)[12..] == Nonce(key, d)[12..];
      XorBytesInjective(key[12..], CounterBytes(c), CounterBytes(d));
      CounterBack(c);
      CounterBack(d);
    }
  }

  datatype Request = Request(cmd: bv8, payload: Payload)

  predicate Encrypted(r: Request) { |r.payload| <= MAX_PAYLOAD }

  type LinkKey = k: Bytes | |k| == 16 witness seq(16, _ => 0)

  datatype LinkState = LinkState(key: LinkKey, counter: nat, enabled: bool)

  datatype Event = Initialise(key: LinkKey) | Disable | Frame(request: Request)

  /** Before any initialisation. */
  function Boot(): LinkState { LinkState(seq(16, _ => 0), 0, false) }

  /** Whether a frame is encrypted in a state. */
  predicate Seals(s: LinkState, r: Request) {
    s.enabled && Encrypted(r)
  }

  function Sent(s: LinkState, r: Request): Bytes {
    if Seals(s, r) then FrameOf(s.key, s.counter, r.cmd, r.payload) else ClearFrame(r.cmd, r.payload)
  }

  function Next(s: LinkState, e: Event): LinkState {
    match e
    case Initialise(key) => LinkState(key, 0, true)
    case Disable => s.(enabled := false)
    case Frame(r) => if Seals(s, r) then s.(counter := (s.counter + 1) % TWO_32) else s
  }

  function StateAfter(events: seq<Event>): LinkState {
    if events == [] then Boot() else Next(StateAfter(events[..|events| - 1]), events[|events| - 1])
  }

  /** Event `i` of a run sends an encrypted frame. */
  predicate SealsAt(events: seq<Event>, i: nat) {
    i < |events| && events[i].Frame? && Seals(StateAfter(events[..i]), events[i].request)
  }

  function KeyAt(events: seq<Event>, i: nat): LinkKey
    requires i <= |events|
  {
    StateAfter(events[..i]).key
  }

  /** The number of encrypted frames since the last initialisation. */
  function SinceInit(events: seq<Event>): nat {
    if events == [] then 0
    else
      var before, last := events[..|events| - 1], events[|events| - 1];
      match last
      case Initialise(_) => 0
      case Disable => SinceInit(before)
      case Frame(r) => SinceInit(before) + if Seals(StateAfter(before), r) then 1 else 0
  }

  function CountAt(events: seq<Event>, i: nat): nat
    requires i <= |events|
  {
    SinceInit(events[..i])
  }

  lemma {:induction false} CounterIsCount(events: seq<Event>)
    ensures StateAfter(events).counter == SinceInit(events) % TWO_32
  {
    hide Seals;
    if events != [] {
      CounterIsCount(events[..|events| - 1]);
    }
  }

  /**
   * Every encrypted frame of a run opens, with the key of the last initialisation, to its request; its counter
   * is the number of encrypted frames since then, modulo 2^32.
   */
  lemma RunOpens(events: seq<Event>, i: nat)
    requires SealsAt(events, i)
    ensures var s, r := StateAfter(events[..i]), events[i].request;
            Open(s.key, Sent(s, r)) == Some(Opened(CountAt(events, i) % TWO_32, r.cmd, r.payload))
  {
    hide FrameOf, Open, ClearFrame, StateAfter, SinceInit;
    var s, r := StateAfter(events[..i]), events[i].request;
    CounterIsCount(events[..i]);
    SentOpens(s.key, s.counter, r.cmd, r.payload);
  }

  /** The nonce of the frame that event `i` encrypts. */
  function NonceAt(events: seq<Event>, i: nat): Bytes
    requires i <= |events|
  {
    Nonce(KeyAt(events, i), StateAfter(events[..i]).counter)
  }

  /**
   * Two encrypted frames under one key share a nonce exactly if the numbers of encrypted frames since their own
   * last initialisations are equal modulo 2^32.
   */
  lemma NonceReuseIff(events: seq<Event>, i: nat, j: nat)
    requires SealsAt(events, i) && SealsAt(events, j) && KeyAt(events, i) == KeyAt(events, j)
    ensures NonceAt(events, i) == NonceAt(events, j)
       <==> CountAt(events, i) % TWO_32 == CountAt(events, j) % TWO_32
  {
    hide Nonce, StateAfter, SinceInit;
    CounterIsCount(events[..i]);
    CounterIsCount(events[..j]);
    NonceIff(KeyAt(events, i), CountAt(events, i) % TWO_32, CountAt(events, j) % TWO_32);
  }

  /** The first frames after any two initialisations with one key always share their nonce. */
  lemma ReinitialisedReuses(events: seq<Event>, i: nat, j: nat)
    requires i + 1 < |events| && j + 1 < |events| && events[i].Initialise? && events[j] == events[i]
    requires events[i + 1].Frame? && Encrypted(events[i + 1].request)
    requires events[j + 1].Frame? && Encrypted(events[j + 1].request)
    ensures SealsAt(events, i + 1) && SealsAt(events, j + 1) && KeyAt(events, i + 1) == KeyAt(events, j + 1)
    ensures NonceAt(events, i + 1) == NonceAt(events, j + 1)
  {
    hide Nonce;
    StateNext(events, i);
    StateNext(events, j);
  }

  lemma StateNext(events: seq<Event>, i: nat)
    requires i < |events|
    ensures StateAfter(events[..i + 1]) == Next(StateAfter(events[..i]), events[i])
    ensures CountAt(events, i + 1) == match events[i]
                                      case Initialise(_) => 0
                                      case Disable => CountAt(events, i)
                                      case Frame(r) => CountAt(events, i) + if SealsAt(events, i) then 1 else 0
  {
    hide Seals;
    assert events[..i + 1][..i] == events[..i];
  }

  /** No initialisation among events `i`, ..., `j - 1`. */
  predicate SameSession(events: seq<Event>, i: nat, j: nat) {
    forall k: nat :: i <= k < j && k < |events| ==> !events[k].Initialise?
  }

  lemma {:induction false} CountGrows(events: seq<Event>, i: nat, j: nat)
    requires SealsAt(events, i) && i < j <= |events| && SameSession(events, i, j)
    ensures 0 < CountAt(events, j) - CountAt(events, i) <= j - i
    decreases j
  {
    hide StateAfter, SinceInit, Seals, CountAt;
    StateNext(events, j - 1);
    if i < j - 1 {
      CountGrows(events, i, j - 1);
    }
  }

  lemma SameRemainder(x: nat, y: nat)
    requires x <= y
    ensures x % TWO_32 == y % TWO_32 <==> (y - x) % TWO_32 == 0
  {
  }

  lemma NotYetEnabled(events: seq<Event>)
    ensures !StateAfter(events[..0]).enabled
  {
    assert events[..0] == [];
  }

  /** An enabled link was initialised with its key, and not again since. */
  lemma {:induction false} LastInit(events: seq<Event>, i: nat) returns (k: nat)
    requires i <= |events| && StateAfter(events[..i]).enabled
    ensures k < i && events[k] == Initialise(KeyAt(events, i)) && SameSession(events, k + 1, i)
    decreases i
  {
    hide SinceInit, Seals;
    NotYetEnabled(events);
    StateNext(events, i - 1);
    if events[i - 1].Initialise? {
      k := i - 1;
    } else {
      k := LastInit(events, i - 1);
    }
  }

  /** No key is used for a second initialisation. */
  predicate KeysOnce(events: seq<Event>) {
    forall a, b :: 0 <= a < b < |events| && events[a].Initialise? ==> events[a] != events[b]
  }

  /** If no key is initialised twice, no nonce comes back under one key within 2^32 events. */
  lemma NoReuse(events: seq<Event>, i: nat, j: nat)
    requires KeysOnce(events) && |events| <= TWO_32
    requires i < j && SealsAt(events, i) && SealsAt(events, j) && KeyAt(events, i) == KeyAt(events, j)
    ensures NonceAt(events, i) != NonceAt(events, j)
  {
    hide StateAfter, SinceInit, CountAt, NonceAt, Encrypted;
    var a := LastInit(events, i);
    var b := LastInit(events, j);
    assert a == b;
    CountGrows(events, i, j);
    NonceReuseIff(events, i, j);
    SameRemainder(CountAt(events, i), CountAt(events, j));
  }

  // ------------------------------------------------------------------------------------------
  // The link state of the source
  // ------------------------------------------------------------------------------------------

  class Link {
    var linkKey: LinkKey
    var txCounter: nat
    var rxCounter: nat
    var enabled: bool
    var initialized: bool

    ghost predicate Valid()
      reads this
    {
      txCounter < TWO_32
    }

    ghost function View(): LinkState
      reads this
    {
      LinkState(linkKey, txCounter, enabled)
    }

    constructor ()
      ensures Valid() && View() == Boot() && !initialized && rxCounter == 0
    {
      linkKey, txCounter, rxCounter := seq(16, _ => 0), 0, 0;
      enabled, initialized := false, false;
    }

    method Init(key: LinkKey)
      modifies this
      ensures Valid() && View() == Next(old(View()), Initialise(key)) && initialized && rxCounter == 0
    {
      linkKey := key;
      txCounter, rxCounter := 0, 0;
      enabled, initialized := true, true;
    }

    method SwitchOff()
      requires Valid()
      modifies this`enabled
      ensures Valid() && View() == Next(old(View()), Disable)
    {
      enabled := false;
    }

    /** The counter, byte by byte, as the source shifts it out. */
    method CounterOut() returns (b: Bytes)
      ensures b == CounterBytes(txCounter)
    {
      hide ByteOf, Shift, CounterBytes;
      b := [ByteOf(Shift(txCounter, 3) % 256), ByteOf(Shift(txCounter, 2) % 256),
            ByteOf(Shift(txCounter, 1) % 256), ByteOf(Shift(txCounter, 0) % 256)];
      forall k: nat | k < 4
        ensures CounterBytes(txCounter)[k] == ByteOf(Shift(txCounter, 3 - k) % 256)
      {
        CounterByteAt(txCounter, k);
      }
    }

    method Put(out: array<bv8>, at: nat, b: Bytes)
      requires at + |b| <= out.Length
      modifies out
      ensures out[at..at + |b|] == b
      ensures forall k | 0 <= k < out.Length && !(at <= k < at + |b|) :: out[k] == old(out[k])
    {
      for i := 0 to |b|
        invariant out[at..at + i] == b[..i]
        invariant forall k | 0 <= k < out.Length && !(at <= k < at + i) :: out[k] == old(out[k])
      {
        out[at + i] := b[i];
      }
      assert b[..|b|] == b;
    }

    /**
     * `spi_ascon_encrypt_frame`. A payload longer than 64 bytes goes out in the clear even on an enabled link,
     * and then the counter stays.
     */
    method EncryptFrame(cmd: bv8, payload: Payload, out: array<bv8>) returns (n: nat)
      requires Valid() && |payload| + 22 <= out.Length
      modifies this`txCounter, out
      ensures Valid()
      ensures n <= out.Length
      ensures out[..n] == Sent(old(View()), Request(cmd, payload))
      ensures View() == Next(old(View()), Frame(Request(cmd, payload)))
      ensures forall k | n <= k < out.Length :: out[k] == old(out[k])
    {
      hide FrameOf, ClearFrame;
      if !enabled || |payload| > MAX_PAYLOAD {
        n := PassThrough(cmd, payload, out);
      } else {
        n := Seal(cmd, payload, out);
        txCounter := (txCounter + 1) % TWO_32;
      }
    }

    method PassThrough(cmd: bv8, payload: Payload, out: array<bv8>) returns (n: nat)
      requires |payload| + 22 <= out.Length
      modifies out
      ensures n == |payload| + 2 && out[..n] == ClearFrame(cmd, payload)
      ensures forall k | n <= k < out.Length :: out[k] == old(out[k])
    {
      hide ByteOf;
      Put(out, 0, [cmd, ByteOf(|payload|)]);
      ghost var head := out[0..2];
      Put(out, 2, payload);
      n := 2 + |payload|;
      assert out[0..2] == head;
      assert out[..n] == out[0..2] + out[2..2 + |payload|];
    }

    method Seal(cmd: bv8, payload: Payload, out: array<bv8>) returns (n: nat)
      requires |payload| + 22 <= out.Length
      modifies out
      ensures n == |payload| + 22 && out[..n] == FrameOf(linkKey, txCounter, cmd, payload)
      ensures forall k | n <= k < out.Length :: out[k] == old(out[k])
    {
      hide ByteOf, Encrypt, CounterBytes;
      var counter := CounterOut();
      var nonce := linkKey[..12] + XorBytes(linkKey[12..], counter);
      var ad := counter + [cmd];
      var tag := new bv8[16];
      var m := |payload|;
      Put(out, 0, ad + [ByteOf(m)]);
      ghost var head := out[0..6];
      Encrypt128(linkKey, nonce, ad, payload, out, 6, tag);
      ghost var body := out[6..6 + m];
      Put(out, 6 + m, tag[..]);
      n := 6 + m + 16;
      assert out[0..6] == head && out[6..6 + m] == body;
      assert out[..n] == out[0..6] + out[6..6 + m] + out[6 + m..n];
    }
  }

  lemma CounterByteAt(c: nat, k: nat)
    requires k < 4
    ensures CounterBytes(c)[k] == ByteOf(Shift(c, 3 - k) % 256)
  {
    hide ByteOf, Shift, BigEndian;
    BigEndianAt(c, 4, k);
  }
}
