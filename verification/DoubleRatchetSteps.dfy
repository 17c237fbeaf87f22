/**
 * The Double Ratchet of `hidra_core/src/ratchet.rs`: one party's state, and its encrypt and decrypt steps as
 * functions on values.
 *
 * X25519 and the root KDF are parameters (`Primitives`), fresh ephemeral secrets are arguments.
 */
module DoubleRatchetSteps {
  import opened Prelude
  import opened SymmetricRatchet

  type Secret = seq<bv8>
  type Public = seq<bv8>

  datatype Primitives = Primitives(
    kdf: Kdf,
    kdfRoot: (Key, Key) -> Key,
    kdfChain: (Key, Key) -> Key,
    publicOf: Secret -> Public,
    diffieHellman: (Secret, Public) -> Key)

  datatype Header = Header(dh: Public, previousChainLength: nat, number: nat)

  /** A message key is cached under the sender's public key and the message number. */
  type KeyId = (Public, nat)

  function Id(h: Header): KeyId {
    (h.dh, h.number)
  }

  const MAX_MESSAGES_PER_CHAIN: nat := 200

  datatype Party = Party(
    root: Key,
    send: Option<Chain>,
    recv: Option<Chain>,
    secret: Secret,
    public: Public,
    peer: Option<Public>,
    prevSendLength: nat,
    sent: nat,
    skipped: map<KeyId, Key>)

  // ------------------------------------------------------------------------------------------
  // The steps of one party, on values
  // ------------------------------------------------------------------------------------------

  function InitAlice(p: Primitives, root: Key, bobPublic: Public, secret: Secret): Party {
    var dh := p.diffieHellman(secret, bobPublic);
    Party(p.kdfRoot(root, dh), Some(Start(p.kdf, p.kdfChain(root, dh))), None,
          secret, p.publicOf(secret), Some(bobPublic), 0, 0, map[])
  }

  function InitBob(p: Primitives, root: Key, secret: Secret): Party {
    Party(root, None, None, secret, p.publicOf(secret), None, 0, 0, map[])
  }

  function SendLength(s: Party): nat {
    if s.send.Some? then s.send.value.number else 0
  }

  /** A new key pair and sending chain against the public key `peer`. */
  function NewSendChain(p: Primitives, s: Party, peer: Public, secret: Secret): Party {
    var dh := p.diffieHellman(secret, peer);
    s.(prevSendLength := SendLength(s),
       secret := secret,
       public := p.publicOf(secret),
       root := p.kdfRoot(s.root, dh),
       send := Some(Start(p.kdf, p.kdfChain(s.root, dh))),
       sent := 0)
  }

  datatype Encrypted = Encrypted(state: Party, result: Result<(Header, MessageKeys), RatchetError>)

  /** The party that actually sends: after a forced step, or after the step that opens a first chain. */
  function ReadyToSend(p: Primitives, s: Party, fresh_: Secret): Party {
    if s.peer.Some? && (s.sent >= MAX_MESSAGES_PER_CHAIN || s.send.None?) then
      NewSendChain(p, s, s.peer.value, fresh_)
    else s
  }

  function Encrypt(p: Primitives, s: Party, fresh_: Secret): Encrypted {
    var t := ReadyToSend(p, s, fresh_);
    if t.send.None? then Encrypted(t, Err(NoPeerKey))
    else
      var c := t.send.value;
      Encrypted(t.(send := Some(Next(p.kdf, c)), sent := t.sent + 1),
                Ok((Header(t.public, t.prevSendLength, c.number), MessageKeys(Current(p.kdf, c), c.number))))
  }

  /** The keys of the next `count` messages of a chain, put into the cache; no bound on the cache. */
  function Stash(kdf: Kdf, from: Public, c: Chain, cache: map<KeyId, Key>, count: nat): (Chain, map<KeyId, Key>) {
    if count == 0 then (c, cache)
    else
      var (d, m) := Stash(kdf, from, c, cache, count - 1);
      (Next(kdf, d), m[(from, d.number) := Current(kdf, d)])
  }

  datatype Decrypted = Decrypted(state: Party, result: Result<MessageKeys, RatchetError>)

  predicate NeedsStep(s: Party, h: Header) {
    s.peer != Some(h.dh)
  }

  /** How many messages of the chain being left are skipped. */
  function SkipsOld(s: Party, h: Header): nat {
    if NeedsStep(s, h) && s.recv.Some? && h.previousChainLength >= s.recv.value.number
    then h.previousChainLength - s.recv.value.number else 0
  }

  /** How many messages of the chain that carries the header are skipped. */
  function SkipsNew(s: Party, h: Header): nat {
    if NeedsStep(s, h) then h.number
    else if s.recv.Some? && h.number > s.recv.value.number then h.number - s.recv.value.number
    else 0
  }

  /** The limits on skipping within which a delivery is promised to succeed and the cache has room. */
  predicate WithinBounds(s: Party, h: Header) {
    Id(h) in s.skipped ||
    (&& SkipsOld(s, h) <= MAX_SKIP
     && SkipsNew(s, h) <= MAX_SKIP
     && |s.skipped| + SkipsOld(s, h) + SkipsNew(s, h) <= MAX_SKIPPED_KEY_CACHE)
  }

  /** The step that a header with a new public key causes, once the old chain's keys are cached. */
  function NewReceiveChain(p: Primitives, s: Party, peer: Public, fresh_: Secret): Party {
    var dh := p.diffieHellman(s.secret, peer);
    NewSendChain(p, s.(root := p.kdfRoot(s.root, dh),
                       peer := Some(peer),
                       recv := Some(Start(p.kdf, p.kdfChain(s.root, dh)))),
                 peer, fresh_)
  }

  function TakeFromChain(p: Primitives, s: Party, h: Header): Decrypted {
    if s.recv.None? then Decrypted(s, Err(NoRecvChain))
    else if h.number < s.recv.value.number then Decrypted(s, Err(ReplayDetected(h.number)))
    else if h.number - s.recv.value.number > MAX_SKIP then
      Decrypted(s, Err(TooManySkipped(h.number - s.recv.value.number)))
    else
      var (c, cache) := Stash(p.kdf, h.dh, s.recv.value, s.skipped, h.number - s.recv.value.number);
      Decrypted(s.(recv := Some(Next(p.kdf, c)), skipped := cache), Ok(MessageKeys(Current(p.kdf, c), c.number)))
  }

  /** The old receiving chain is left: its outstanding keys are cached under the old peer key. */
  function LeaveChain(p: Primitives, s: Party, h: Header): Party {
    if s.recv.Some? then
      s.(recv := None,
         skipped := Stash(p.kdf, if s.peer.Some? then s.peer.value else seq(32, _ => 0),
                          s.recv.value, s.skipped, SkipsOld(s, h)).1)
    else s
  }

  function Decrypt(p: Primitives, s: Party, h: Header, fresh_: Secret): Decrypted {
    if Id(h) in s.skipped then
      Decrypted(s.(skipped := s.skipped - {Id(h)}), Ok(MessageKeys(s.skipped[Id(h)], h.number)))
    else if !NeedsStep(s, h) then TakeFromChain(p, s, h)
    else if SkipsOld(s, h) > MAX_SKIP then Decrypted(s.(recv := None), Err(TooManySkipped(SkipsOld(s, h))))
    else TakeFromChain(p, NewReceiveChain(p, LeaveChain(p, s, h), h.dh, fresh_), h)
  }

  // ------------------------------------------------------------------------------------------
  // The first messages, written out
  // ------------------------------------------------------------------------------------------

  /** The first message key of a chain whose root and shared secret are given. */
  function FirstKey(p: Primitives, root: Key, shared: Key): MessageKeys {
    MessageKeys(p.kdf.message(p.kdf.chain(p.kdfChain(root, shared))), 0)
  }

  /** Alice's first message, and what Bob makes of it. */
  lemma FirstMessage(p: Primitives, root: Key, a: Secret, b: Secret, x: Secret)
    ensures var alice, bob := InitAlice(p, root, p.publicOf(b), a), InitBob(p, root, b);
            var h := Header(p.publicOf(a), 0, 0);
            && Encrypt(p, alice, x).result == Ok((h, FirstKey(p, root, p.diffieHellman(a, p.publicOf(b)))))
            && Decrypt(p, bob, h, x).result == Ok(FirstKey(p, root, p.diffieHellman(b, p.publicOf(a))))
  {
  }

  /**
   * Bob's answer, from the root key one step on and with the key pair he made on receiving, and what Alice makes of
   * it; her next message is from two steps on, and tells that her first chain had one message.
   */
  lemma FirstAnswer(p: Primitives, root: Key, a: Secret, b: Secret, x: Secret, y: Secret)
    requires p.publicOf(x) != p.publicOf(b)
    ensures var toBob, answer := Header(p.publicOf(a), 0, 0), Header(p.publicOf(x), 0, 0);
            var alice := Encrypt(p, InitAlice(p, root, p.publicOf(b), a), x).state;
            var bob := Decrypt(p, InitBob(p, root, b), toBob, x).state;
            var root1 := p.kdfRoot(root, p.diffieHellman(a, p.publicOf(b)));
            var root2 := p.kdfRoot(root1, p.diffieHellman(a, p.publicOf(x)));
            && Encrypt(p, bob, y).result
               == Ok((answer, FirstKey(p, p.kdfRoot(root, p.diffieHellman(b, p.publicOf(a))),
                                       p.diffieHellman(x, p.publicOf(a)))))
            && Decrypt(p, alice, answer, y).result == Ok(FirstKey(p, root1, p.diffieHellman(a, p.publicOf(x))))
            && Encrypt(p, Decrypt(p, alice, answer, y).state, y).result
               == Ok((Header(p.publicOf(y), 1, 0), FirstKey(p, root2, p.diffieHellman(y, p.publicOf(x)))))
  {
  }

  // ------------------------------------------------------------------------------------------
  // Failed decryptions
  // ------------------------------------------------------------------------------------------

  /** A failed decryption leaves the party as it was exactly if the header named the current key pair. */
  lemma FailedDecryptUnchangedIff(p: Primitives, s: Party, h: Header, x: Secret)
    requires Decrypt(p, s, h, x).result.Err?
    ensures Decrypt(p, s, h, x).state == s <==> !NeedsStep(s, h)
  {
    hide LeaveChain, Stash;
  }

  /**
   * A header that names a new key pair and too many messages of the old chain costs the party its receiving
   * chain: messages of the current key pair are refused from then on, unless their keys were cached.
   */
  lemma RefusedHeaderLosesChain(p: Primitives, s: Party, h: Header, x: Secret, good: Header, y: Secret)
    requires NeedsStep(s, h) && Id(h) !in s.skipped && SkipsOld(s, h) > MAX_SKIP
    requires !NeedsStep(s, good) && Id(good) !in s.skipped
    ensures var t := Decrypt(p, s, h, x).state; Decrypt(p, t, good, y) == Decrypted(t, Err(NoRecvChain))
  {
    hide LeaveChain, Stash;
  }

  // ------------------------------------------------------------------------------------------
  // When two chains give the same key
  // ------------------------------------------------------------------------------------------

  /** Two different inputs with one result. */
  predicate Collide(f: Key -> Key, x: Key, y: Key) {
    x != y && f(x) == f(y)
  }

  /** The same for a function of a root key and a shared secret. */
  predicate Collide2(f: (Key, Key) -> Key, r: Key, d: Key, r': Key, d': Key) {
    (r, d) != (r', d') && f(r, d) == f(r', d')
  }

  /** A collision on the way from the chain keys `a` and `b` to their message keys number `n`. */
  ghost predicate StreamsCollide(kdf: Kdf, a: Key, b: Key, n: nat) {
    || Collide(kdf.chain, a, b)
    || (exists i: nat :: i < n && CollideAt(kdf, a, b, i))
    || Collide(kdf.message, ChainAt(kdf, a, n).key, ChainAt(kdf, b, n).key)
  }

  ghost predicate CollideAt(kdf: Kdf, a: Key, b: Key, i: nat) {
    Collide(kdf.chain, ChainAt(kdf, a, i).key, ChainAt(kdf, b, i).key)
  }

  lemma {:induction false} ChainsMeetIff(kdf: Kdf, a: Key, b: Key, n: nat)
    ensures ChainAt(kdf, a, n).key == ChainAt(kdf, b, n).key
       <==> a == b || Collide(kdf.chain, a, b) || exists i: nat :: i < n && CollideAt(kdf, a, b, i)
  {
    if n > 0 {
      ChainsMeetIff(kdf, a, b, n - 1);
      assert ChainAt(kdf, a, n).key == ChainAt(kdf, b, n).key
        <==> ChainAt(kdf, a, n - 1).key == ChainAt(kdf, b, n - 1).key || CollideAt(kdf, a, b, n - 1);
    }
  }

  /** The chains of two root steps, from root keys `r`, `r'` with shared secrets `d`, `d'`, meet at message `n`. */
  ghost predicate Coincide(p: Primitives, r: Key, d: Key, r': Key, d': Key, n: nat) {
    || (r, d) == (r', d')
    || Collide2(p.kdfChain, r, d, r', d')
    || StreamsCollide(p.kdf, p.kdfChain(r, d), p.kdfChain(r', d'), n)
  }

  /** Two chains give one key at one number exactly if they have one origin or a function collides on the way. */
  lemma SameKeyIff(p: Primitives, r: Key, d: Key, r': Key, d': Key, n: nat)
    ensures StreamKey(p.kdf, p.kdfChain(r, d), n) == StreamKey(p.kdf, p.kdfChain(r', d'), n)
       <==> Coincide(p, r, d, r', d', n)
  {
    hide ChainAt;
    ChainsMeetIff(p.kdf, p.kdfChain(r, d), p.kdfChain(r', d'), n);
  }

  /** All keys, public keys and shared secrets made from 32 bytes are of 32 bytes. */
  ghost predicate KeepsLength(p: Primitives) {
    && (forall k: Key :: |k| == 32 ==> |p.kdf.chain(k)| == 32 && |p.kdf.message(k)| == 32)
    && (forall r: Key, d: Key :: |r| == 32 && |d| == 32 ==> |p.kdfRoot(r, d)| == 32 && |p.kdfChain(r, d)| == 32)
    && (forall x: Secret :: |x| == 32 ==> |p.publicOf(x)| == 32)
    && (forall x: Secret, y: Public :: |x| == 32 && |y| == 32 ==> |p.diffieHellman(x, y)| == 32)
  }

  /** A key with one of its bytes counted up. */
  function CountUp(k: Key, i: nat): Key {
    if i < |k| then k[i := k[i] + 1] else k
  }

  /** Functions of fixed length that count in different bytes: enough to see that keys need not coincide. */
  function Counting(): Primitives {
    Primitives(Kdf((k: Key) => CountUp(k, 1), (k: Key) => k), (r: Key, d: Key) => CountUp(r, 0), (r: Key, d: Key) => r,
               (x: Secret) => x, (x: Secret, y: Public) => seq(32, _ => 0))
  }

  lemma CountingKeepsLength()
    ensures KeepsLength(Counting())
  {
  }

  lemma SameByte(a: bv8, b: bv8)
    requires a + 1 == b + 1
    ensures a == b
  {
  }

  lemma CountUpInjective(a: Key, b: Key, i: nat)
    requires CountUp(a, i) == CountUp(b, i)
    ensures a == b
  {
    assert |a| == |b|;
    if i < |a| {
      assert CountUp(a, i)[i] == a[i] + 1 && CountUp(b, i)[i] == b[i] + 1;
      SameByte(a[i], b[i]);
      assert a == CountUp(a, i)[i := a[i]] && b == CountUp(b, i)[i := b[i]];
    }
  }

  /** With these functions two steps coincide exactly if their root keys are equal. */
  lemma CountingCoincidesIff(r: Key, d: Key, r': Key, d': Key, n: nat)
    ensures Coincide(Counting(), r, d, r', d', n) <==> r == r'
  {
    hide ChainAt, CountUp;
    var kdf := Counting().kdf;
    forall a, b | kdf.chain(a) == kdf.chain(b)
      ensures a == b
    {
      CountUpInjective(a, b, 1);
    }
  }

  // ------------------------------------------------------------------------------------------
  // What stashing does to a chain that started from `root`
  // ------------------------------------------------------------------------------------------

  /** `result` is `cache` plus the keys of messages m, ..., n - 1 of the chain started from `root`. */
  ghost predicate Stashed(kdf: Kdf, root: Key, from: Public, m: nat, n: nat, cache: map<KeyId, Key>,
                          result: map<KeyId, Key>) {
    && (forall id: KeyId :: id in result <==> id in cache || (id.0 == from && m <= id.1 < n))
    && (forall id: KeyId :: id in result ==>
                       result[id] == if id.0 == from && m <= id.1 < n then StreamKey(kdf, root, id.1) else cache[id])
  }

  lemma StashedOneMore(kdf: Kdf, root: Key, from: Public, m: nat, n: nat, cache: map<KeyId, Key>,
                       result: map<KeyId, Key>)
    requires m <= n && Stashed(kdf, root, from, m, n, cache, result)
    ensures Stashed(kdf, root, from, m, n + 1, cache, result[(from, n) := StreamKey(kdf, root, n)])
  {
    hide StreamKey;
  }

  lemma {:induction false} StashAlong(kdf: Kdf, root: Key, from: Public, m: nat, cache: map<KeyId, Key>, count: nat)
    ensures var (c, result) := Stash(kdf, from, ChainAt(kdf, root, m), cache, count);
            && c == ChainAt(kdf, root, m + count)
            && Stashed(kdf, root, from, m, m + count, cache, result)
  {
    hide Stashed, Start, Next, Current;
    if count == 0 {
      NothingStashed(kdf, root, from, m, cache);
    } else {
      StashAlong(kdf, root, from, m, cache, count - 1);
      ChainAtNumber(kdf, root, m + count - 1);
      var (d, before) := Stash(kdf, from, ChainAt(kdf, root, m), cache, count - 1);
      StashedOneMore(kdf, root, from, m, m + count - 1, cache, before);
    }
  }

  lemma PutSize(cache: map<KeyId, Key>, id: KeyId, key: Key)
    ensures |cache[id := key]| <= |cache| + 1
  {
    assert cache[id := key].Keys == cache.Keys + {id};
  }

  lemma {:induction false} StashSize(kdf: Kdf, from: Public, c: Chain, cache: map<KeyId, Key>, count: nat)
    ensures |Stash(kdf, from, c, cache, count).1| <= |cache| + count
  {
    hide Next, Current;
    if count > 0 {
      StashSize(kdf, from, c, cache, count - 1);
      var (d, before) := Stash(kdf, from, c, cache, count - 1);
      PutSize(before, (from, d.number), Current(kdf, d));
    }
  }

  lemma NothingStashed(kdf: Kdf, root: Key, from: Public, m: nat, cache: map<KeyId, Key>)
    ensures Stashed(kdf, root, from, m, m, cache, cache)
  {
  }
}
