/**
 * Two parties running the Double Ratchet over a network that delays, reorders and drops messages.
 *
 * The ratchet's key pairs are numbered in the order of use: pair 0 is Bob's first, pair 1 Alice's first,
 * pair 2 the one Bob makes when he sees pair 1, and so on; pair e carries epoch e, whose sender is Alice for
 * odd e and Bob for even e. `Inv` says what both parties hold in terms of that numbering. Every step keeps
 * it, and it makes every delivery agree with the sender.
 */
module DoubleRatchetProtocol {
  import opened Prelude
  import opened SymmetricRatchet
  import opened DoubleRatchetSteps

  datatype Role = Alice | Bob

  function Other(r: Role): Role {
    if r == Alice then Bob else Alice
  }

  /** A message on the network. `epoch` is history: no step looks at it. */
  datatype Envelope = Envelope(sender: Role, header: Header, key: Key, epoch: nat)

  /** The initial root key and the secrets of the key pairs in order of use. */
  datatype Pairs = Pairs(root: Key, secrets: seq<Secret>)

  /**
   * The two parties, everything ever sent, the headers already decrypted; and as history the key pairs,
   * the number of messages sent in each epoch, and the epoch each party sends in.
   */
  datatype World = World(
    alice: Party, bob: Party,
    net: seq<Envelope>, delivered: set<KeyId>,
    pairs: Pairs, counts: seq<nat>, aliceEpoch: nat, bobEpoch: nat)

  function Extend(k: Pairs, x: Secret): Pairs {
    k.(secrets := k.secrets + [x])
  }

  function PartyOf(w: World, r: Role): Party {
    if r == Alice then w.alice else w.bob
  }

  function EpochOf(w: World, r: Role): nat {
    if r == Alice then w.aliceEpoch else w.bobEpoch
  }

  function WithParty(w: World, r: Role, s: Party): World {
    if r == Alice then w.(alice := s) else w.(bob := s)
  }

  // ------------------------------------------------------------------------------------------
  // Steps and runs
  // ------------------------------------------------------------------------------------------

  datatype Action =
    | Send(who: Role, fresh_: Secret)
    | Deliver(who: Role, index: nat, fresh_: Secret)

  predicate FreshSecret(p: Primitives, w: World, x: Secret) {
    forall i :: 0 <= i < |w.pairs.secrets| ==> p.publicOf(w.pairs.secrets[i]) != p.publicOf(x)
  }

  /**
   * A message may be delivered to the peer of its sender in any order, or never; a header already decrypted
   * only while its key pair is still the sender's latest one known to the receiver.
   */
  predicate Deliverable(p: Primitives, w: World, a: Action)
    requires a.Deliver?
  {
    && a.index < |w.net|
    && w.net[a.index].sender != a.who
    && FreshSecret(p, w, a.fresh_)
    && (Id(w.net[a.index].header) in w.delivered ==> PartyOf(w, a.who).peer == Some(w.net[a.index].header.dh))
  }

  predicate Enabled(p: Primitives, w: World, a: Action) {
    match a
    case Send(who, _) => PartyOf(w, who).sent < MAX_MESSAGES_PER_CHAIN
    case Deliver(who, i, _) => Deliverable(p, w, a) && WithinBounds(PartyOf(w, who), w.net[i].header)
  }

  function SendStep(p: Primitives, w: World, who: Role, fresh_: Secret): World {
    var o := Encrypt(p, PartyOf(w, who), fresh_);
    var e := EpochOf(w, who);
    if o.result.Err? || e >= |w.counts| then WithParty(w, who, o.state)
    else
      var (h, k) := o.result.value;
      WithParty(w, who, o.state).(net := w.net + [Envelope(who, h, k.key, e)],
                                  counts := w.counts[e := w.counts[e] + 1])
  }

  function Receive(p: Primitives, w: World, who: Role, h: Header, fresh_: Secret): Decrypted {
    Decrypt(p, PartyOf(w, who), h, fresh_)
  }

  function DeliverStep(p: Primitives, w: World, who: Role, h: Header, fresh_: Secret): World {
    var o := Receive(p, w, who, h, fresh_);
    var t := WithParty(w, who, o.state).(delivered := w.delivered + (if o.result.Ok? then {Id(h)} else {}));
    if o.state.public == PartyOf(w, who).public then t
    else
      var e := |w.pairs.secrets|;
      t.(pairs := Extend(w.pairs, fresh_), counts := w.counts + [0],
         aliceEpoch := if who == Alice then e else w.aliceEpoch,
         bobEpoch := if who == Bob then e else w.bobEpoch)
  }

  function Step(p: Primitives, w: World, a: Action): World
    requires Enabled(p, w, a)
  {
    match a
    case Send(who, x) => SendStep(p, w, who, x)
    case Deliver(who, i, x) => DeliverStep(p, w, who, w.net[i].header, x)
  }

  function InitialWorld(p: Primitives, root: Key, bobSecret: Secret, aliceSecret: Secret): World {
    World(InitAlice(p, root, p.publicOf(bobSecret), aliceSecret), InitBob(p, root, bobSecret),
          [], {}, Pairs(root, [bobSecret, aliceSecret]), [0, 0], 1, 0)
  }

  /** Every action is enabled in the world that those before it lead to. */
  ghost predicate ValidRun(p: Primitives, w: World, actions: seq<Action>)
    decreases |actions|
  {
    actions == [] || (Enabled(p, w, actions[0]) && ValidRun(p, Step(p, w, actions[0]), actions[1..]))
  }

  ghost function After(p: Primitives, w: World, actions: seq<Action>): World
    requires ValidRun(p, w, actions)
    decreases |actions|
  {
    if actions == [] then w else After(p, Step(p, w, actions[0]), actions[1..])
  }

  // ------------------------------------------------------------------------------------------
  // What the key pairs determine
  // ------------------------------------------------------------------------------------------

  /** All that is assumed of X25519: both sides of an exchange compute the same secret. */
  ghost predicate Commutes(p: Primitives) {
    forall a, b :: p.diffieHellman(a, p.publicOf(b)) == p.diffieHellman(b, p.publicOf(a))
  }

  ghost function Shared(p: Primitives, k: Pairs, e: nat): Key
    requires 1 <= e < |k.secrets|
  {
    p.diffieHellman(k.secrets[e], p.publicOf(k.secrets[e - 1]))
  }

  /** The root key after `e` root steps. */
  ghost function RootAt(p: Primitives, k: Pairs, e: nat): Key
    requires e < |k.secrets|
  {
    if e == 0 then k.root else p.kdfRoot(RootAt(p, k, e - 1), Shared(p, k, e))
  }

  /** The chain key that epoch `e` starts from. */
  ghost function EpochKey(p: Primitives, k: Pairs, e: nat): Key
    requires 1 <= e < |k.secrets|
  {
    p.kdfChain(RootAt(p, k, e - 1), Shared(p, k, e))
  }

  /** The chain of epoch `e` after `n` messages. */
  ghost function EpochChain(p: Primitives, k: Pairs, e: nat, n: nat): Chain
    requires 1 <= e < |k.secrets|
  {
    ChainAt(p.kdf, EpochKey(p, k, e), n)
  }

  ghost function MessageKey(p: Primitives, k: Pairs, e: nat, n: nat): Key
    requires 1 <= e < |k.secrets|
  {
    StreamKey(p.kdf, EpochKey(p, k, e), n)
  }

  ghost function MessageId(p: Primitives, k: Pairs, e: nat, n: nat): KeyId
    requires e < |k.secrets|
  {
    (p.publicOf(k.secrets[e]), n)
  }

  lemma {:induction false} RootAtPrefix(p: Primitives, k: Pairs, x: Secret, e: nat)
    requires e < |k.secrets|
    ensures RootAt(p, Extend(k, x), e) == RootAt(p, k, e)
  {
    if e > 0 {
      RootAtPrefix(p, k, x, e - 1);
    }
  }

  lemma EpochKeyPrefix(p: Primitives, k: Pairs, x: Secret, e: nat)
    requires 1 <= e < |k.secrets|
    ensures EpochKey(p, Extend(k, x), e) == EpochKey(p, k, e)
  {
    RootAtPrefix(p, k, x, e - 1);
  }

  function SenderOf(e: nat): Role {
    if e % 2 == 1 then Alice else Bob
  }

  /** The number of messages of the sender's preceding epoch. */
  function PreviousLength(counts: seq<nat>, e: nat): nat
    requires e < |counts|
  {
    if e >= 2 then counts[e - 2] else 0
  }

  // ------------------------------------------------------------------------------------------
  // The invariant
  // ------------------------------------------------------------------------------------------

  ghost predicate DistinctPublics(p: Primitives, k: Pairs) {
    forall i, j :: 0 <= i < j < |k.secrets| ==> p.publicOf(k.secrets[i]) != p.publicOf(k.secrets[j])
  }

  /** A party that sends in epoch `e` receives in the epochs of the other parity. */
  predicate ReceivesIn(e: nat, f: nat) {
    1 <= f && f % 2 != e % 2
  }

  /** Keys, chains and counters of a party that sends in epoch `e`. */
  ghost predicate ChainsInv(p: Primitives, k: Pairs, counts: seq<nat>, e: nat, s: Party)
    requires e < |k.secrets| == |counts|
  {
    && s.secret == k.secrets[e]
    && s.public == p.publicOf(s.secret)
    && s.root == RootAt(p, k, e)
    && s.sent == counts[e]
    && s.prevSendLength == PreviousLength(counts, e)
    && s.peer == (if e == 0 then None else Some(p.publicOf(k.secrets[e - 1])))
    && s.send == (if e == 0 then None else Some(EpochChain(p, k, e, counts[e])))
    && (if e < 2 then s.recv == None
        else s.recv.Some? && s.recv.value.number <= counts[e - 1]
             && s.recv.value == EpochChain(p, k, e - 1, s.recv.value.number))
  }

  /** How far into each epoch the receiving side of a party that sends in epoch `e` has come. */
  ghost function Reached(counts: seq<nat>, e: nat, recv: Option<Chain>): seq<nat> {
    seq(|counts|, (f: nat) requires f < |counts| =>
          if f % 2 == e % 2 then 0
          else if f + 1 < e then counts[f]
          else if f + 1 == e && recv.Some? then recv.value.number
          else 0)
  }

  ghost predicate HeldKey(p: Primitives, k: Pairs, e: nat, skipped: map<KeyId, Key>, reached: seq<nat>,
                          id: KeyId, f: nat)
    requires |reached| == |k.secrets|
  {
    && ReceivesIn(e, f) && f < |k.secrets|
    && id.1 < reached[f]
    && id == MessageId(p, k, f, id.1)
    && id in skipped && skipped[id] == MessageKey(p, k, f, id.1)
  }

  /** Every cached key is the right key of a message passed over and not yet decrypted. */
  ghost predicate CacheSound(p: Primitives, k: Pairs, delivered: set<KeyId>, e: nat, skipped: map<KeyId, Key>,
                             reached: seq<nat>)
    requires |reached| == |k.secrets|
  {
    forall id :: id in skipped ==> id !in delivered && exists f :: HeldKey(p, k, e, skipped, reached, id, f)
  }

  /** Every message passed over is cached or decrypted, and nothing beyond is decrypted. */
  ghost predicate CacheComplete(p: Primitives, k: Pairs, delivered: set<KeyId>, e: nat, skipped: map<KeyId,
                                Key>, reached: seq<nat>)
    requires |reached| == |k.secrets|
  {
    forall f: nat, n: nat :: ReceivesIn(e, f) && f < |k.secrets| ==>
                          (n < reached[f] <==> MessageId(p, k, f, n) in skipped || MessageId(p, k, f, n) in delivered)
  }

  ghost predicate CacheInv(p: Primitives, k: Pairs, delivered: set<KeyId>, e: nat, skipped: map<KeyId, Key>,
                           reached: seq<nat>)
    requires |reached| == |k.secrets|
  {
    && CacheSound(p, k, delivered, e, skipped, reached)
    && CacheComplete(p, k, delivered, e, skipped, reached)
  }

  ghost predicate PartyInv(p: Primitives, k: Pairs, counts: seq<nat>, delivered: set<KeyId>, e: nat, s: Party)
    requires e < |k.secrets| == |counts|
  {
    && ChainsInv(p, k, counts, e, s)
    && CacheInv(p, k, delivered, e, s.skipped, Reached(counts, e, s.recv))
  }

  ghost predicate EnvelopeInv(p: Primitives, k: Pairs, counts: seq<nat>, m: Envelope)
    requires |k.secrets| == |counts|
  {
    && 1 <= m.epoch < |counts|
    && m.sender == SenderOf(m.epoch)
    && m.header.number < counts[m.epoch]
    && m.header.dh == p.publicOf(k.secrets[m.epoch])
    && m.header.previousChainLength == PreviousLength(counts, m.epoch)
    && m.key == MessageKey(p, k, m.epoch, m.header.number)
  }

  ghost predicate NetInv(p: Primitives, k: Pairs, counts: seq<nat>, net: seq<Envelope>)
    requires |k.secrets| == |counts|
  {
    forall i :: 0 <= i < |net| ==> EnvelopeInv(p, k, counts, net[i])
  }

  /** The epochs of the two parties are adjacent, and the larger one has the newest key pair. */
  ghost predicate EpochsInv(w: World) {
    && w.aliceEpoch % 2 == 1 && w.bobEpoch % 2 == 0
    && (w.aliceEpoch == w.bobEpoch + 1 || w.bobEpoch == w.aliceEpoch + 1)
    && |w.counts| == |w.pairs.secrets| == (if w.aliceEpoch > w.bobEpoch then w.aliceEpoch else w.bobEpoch) + 1
    && w.counts[0] == 0
  }

  ghost predicate KnownPublic(p: Primitives, k: Pairs, public: Public) {
    exists i :: 0 <= i < |k.secrets| && public == p.publicOf(k.secrets[i])
  }

  ghost predicate DeliveredKnown(p: Primitives, k: Pairs, delivered: set<KeyId>) {
    forall id :: id in delivered ==> KnownPublic(p, k, id.0)
  }

  ghost predicate Inv(p: Primitives, w: World) {
    && EpochsInv(w)
    && DeliveredKnown(p, w.pairs, w.delivered)
    && DistinctPublics(p, w.pairs)
    && PartyInv(p, w.pairs, w.counts, w.delivered, w.aliceEpoch, w.alice)
    && PartyInv(p, w.pairs, w.counts, w.delivered, w.bobEpoch, w.bob)
    && NetInv(p, w.pairs, w.counts, w.net)
    && |w.alice.skipped| <= MAX_SKIPPED_KEY_CACHE
    && |w.bob.skipped| <= MAX_SKIPPED_KEY_CACHE
  }

  lemma InitialInv(p: Primitives, root: Key, bobSecret: Secret, aliceSecret: Secret)
    requires p.publicOf(bobSecret) != p.publicOf(aliceSecret)
    ensures Inv(p, InitialWorld(p, root, bobSecret, aliceSecret))
  {
    var w := InitialWorld(p, root, bobSecret, aliceSecret);
    assert RootAt(p, w.pairs, 1) == p.kdfRoot(RootAt(p, w.pairs, 0), Shared(p, w.pairs, 1));
  }

  // ------------------------------------------------------------------------------------------
  // What the cache operations do to the cache part of the invariant
  // ------------------------------------------------------------------------------------------

  lemma CacheSoundAfterStash(p: Primitives, k: Pairs, delivered: set<KeyId>, e: nat, skipped: map<KeyId, Key>,
                             reached: seq<nat>, f: nat, n: nat, cache: map<KeyId, Key>)
    requires |reached| == |k.secrets| && ReceivesIn(e, f) && f < |k.secrets| && reached[f] <= n
    requires CacheInv(p, k, delivered, e, skipped, reached)
    requires Stashed(p.kdf, EpochKey(p, k, f), p.publicOf(k.secrets[f]), reached[f], n, skipped, cache)
    ensures CacheSound(p, k, delivered, e, cache, reached[f := n])
  {
    hide RootAt, StreamKey, EpochKey;
    var now := reached[f := n];
    forall id | id in cache
      ensures id !in delivered && exists g :: HeldKey(p, k, e, cache, now, id, g)
    {
      if id.0 == p.publicOf(k.secrets[f]) && reached[f] <= id.1 < n {
        assert id == MessageId(p, k, f, id.1);
        assert HeldKey(p, k, e, cache, now, id, f);
      } else {
        var g :| HeldKey(p, k, e, skipped, reached, id, g);
        assert HeldKey(p, k, e, cache, now, id, g);
      }
    }
  }

  lemma CacheAfterStash(p: Primitives, k: Pairs, delivered: set<KeyId>, e: nat, skipped: map<KeyId, Key>,
                        reached: seq<nat>, f: nat, n: nat, cache: map<KeyId, Key>)
    requires |reached| == |k.secrets| && ReceivesIn(e, f) && f < |k.secrets| && reached[f] <= n
    requires DistinctPublics(p, k)
    requires CacheInv(p, k, delivered, e, skipped, reached)
    requires Stashed(p.kdf, EpochKey(p, k, f), p.publicOf(k.secrets[f]), reached[f], n, skipped, cache)
    ensures CacheInv(p, k, delivered, e, cache, reached[f := n])
  {
    hide RootAt, StreamKey, EpochKey, CacheSound;
    CacheSoundAfterStash(p, k, delivered, e, skipped, reached, f, n, cache);
    var now := reached[f := n];
    forall g: nat, m: nat | ReceivesIn(e, g) && g < |k.secrets|
      ensures m < now[g] <==> MessageId(p, k, g, m) in cache || MessageId(p, k, g, m) in delivered
    {
      assert m < reached[g] <==> MessageId(p, k, g, m) in skipped || MessageId(p, k, g, m) in delivered;
    }
  }

  lemma CacheAfterTake(p: Primitives, k: Pairs, delivered: set<KeyId>, e: nat, skipped: map<KeyId, Key>,
                       reached: seq<nat>, f: nat)
    requires |reached| == |k.secrets| && ReceivesIn(e, f) && f < |k.secrets|
    requires DistinctPublics(p, k)
    requires CacheInv(p, k, delivered, e, skipped, reached)
    ensures CacheInv(p, k, delivered + {MessageId(p, k, f, reached[f])}, e, skipped, reached[f := reached[f] + 1])
    ensures MessageId(p, k, f, reached[f]) !in skipped
  {
    hide RootAt, StreamKey;
    var n := reached[f];
    var now := reached[f := n + 1];
    var id0 := MessageId(p, k, f, n);
    assert id0 !in skipped;
    forall id | id in skipped
      ensures id !in delivered + {id0} && exists g :: HeldKey(p, k, e, skipped, now, id, g)
    {
      var g :| HeldKey(p, k, e, skipped, reached, id, g);
      assert HeldKey(p, k, e, skipped, now, id, g);
    }
    forall g: nat, m: nat | ReceivesIn(e, g) && g < |k.secrets|
      ensures m < now[g] <==> MessageId(p, k, g, m) in skipped || MessageId(p, k, g, m) in delivered + {id0}
    {
      assert m < reached[g] <==> MessageId(p, k, g, m) in skipped || MessageId(p, k, g, m) in delivered;
    }
  }

  lemma CacheAfterHit(p: Primitives, k: Pairs, delivered: set<KeyId>, e: nat, skipped: map<KeyId, Key>,
                      reached: seq<nat>, id0: KeyId)
    requires |reached| == |k.secrets| && id0 in skipped
    requires CacheInv(p, k, delivered, e, skipped, reached)
    ensures CacheInv(p, k, delivered + {id0}, e, skipped - {id0}, reached)
  {
    hide RootAt, StreamKey;
    forall id | id in skipped - {id0}
      ensures id !in delivered + {id0} && exists g :: HeldKey(p, k, e, skipped - {id0}, reached, id, g)
    {
      var g :| HeldKey(p, k, e, skipped, reached, id, g);
      assert HeldKey(p, k, e, skipped - {id0}, reached, id, g);
    }
    forall g: nat, m: nat | ReceivesIn(e, g) && g < |k.secrets|
      ensures m < reached[g] <==> MessageId(p, k, g, m) in skipped - {id0} || MessageId(p, k, g, m) in delivered + {id0}
    {
      assert m < reached[g] <==> MessageId(p, k, g, m) in skipped || MessageId(p, k, g, m) in delivered;
    }
  }

  /** A message decrypted by the other side does not touch this side's cache. */
  lemma CacheOfOtherSide(p: Primitives, k: Pairs, delivered: set<KeyId>, e: nat, skipped: map<KeyId, Key>,
                         reached: seq<nat>, f: nat, n: nat)
    requires |reached| == |k.secrets| && f < |k.secrets| && f % 2 == e % 2
    requires DistinctPublics(p, k)
    requires CacheInv(p, k, delivered, e, skipped, reached)
    ensures CacheInv(p, k, delivered + {MessageId(p, k, f, n)}, e, skipped, reached)
  {
    hide RootAt, StreamKey;
    var id0 := MessageId(p, k, f, n);
    forall id | id in skipped
      ensures id !in delivered + {id0}
    {
      var g :| HeldKey(p, k, e, skipped, reached, id, g);
    }
    forall g: nat, m: nat | ReceivesIn(e, g) && g < |k.secrets|
      ensures m < reached[g] <==> MessageId(p, k, g, m) in skipped || MessageId(p, k, g, m) in delivered + {id0}
    {
      assert m < reached[g] <==> MessageId(p, k, g, m) in skipped || MessageId(p, k, g, m) in delivered;
    }
  }

  lemma CacheExtends(p: Primitives, k: Pairs, delivered: set<KeyId>, e: nat, skipped: map<KeyId, Key>,
                     reached: seq<nat>, x: Secret)
    requires |reached| == |k.secrets|
    requires DistinctPublics(p, Extend(k, x)) && DeliveredKnown(p, k, delivered)
    requires CacheInv(p, k, delivered, e, skipped, reached)
    ensures CacheInv(p, Extend(k, x), delivered, e, skipped, reached + [0])
  {
    hide RootAt, StreamKey, EpochKey;
    var k', last := Extend(k, x), |k.secrets|;
    forall id | id in skipped
      ensures exists g :: HeldKey(p, k', e, skipped, reached + [0], id, g)
    {
      var g :| HeldKey(p, k, e, skipped, reached, id, g);
      EpochKeyPrefix(p, k, x, g);
      assert MessageKey(p, k', g, id.1) == MessageKey(p, k, g, id.1);
      assert HeldKey(p, k', e, skipped, reached + [0], id, g);
    }
    forall g: nat, m: nat | ReceivesIn(e, g) && g < |k'.secrets|
      ensures m < (reached + [0])[g] <==> MessageId(p, k', g, m) in skipped || MessageId(p, k', g, m) in delivered
    {
      if g < last {
        assert MessageId(p, k', g, m) == MessageId(p, k, g, m);
      } else {
        assert p.publicOf(k'.secrets[last]) == p.publicOf(x);
        NewPublicUnknown(p, k, x);
      }
    }
  }

  lemma NewPublicUnknown(p: Primitives, k: Pairs, x: Secret)
    requires DistinctPublics(p, Extend(k, x))
    ensures !KnownPublic(p, k, p.publicOf(x))
  {
    var all := Extend(k, x).secrets;
    forall i | 0 <= i < |k.secrets|
      ensures p.publicOf(k.secrets[i]) != p.publicOf(x)
    {
      assert all[i] == k.secrets[i] && all[|k.secrets|] == x;
    }
  }

  // ------------------------------------------------------------------------------------------
  // Sending keeps the invariant
  // ------------------------------------------------------------------------------------------

  function Bump(counts: seq<nat>, e: nat): seq<nat>
    requires e < |counts|
  {
    counts[e := counts[e] + 1]
  }

  /** The message a party sends carries the next key of its epoch. */
  lemma SenderAfterSend(p: Primitives, k: Pairs, counts: seq<nat>, delivered: set<KeyId>, e: nat, s: Party, x: Secret)
    requires 1 <= e < |k.secrets| == |counts| && PartyInv(p, k, counts, delivered, e, s)
    requires s.sent < MAX_MESSAGES_PER_CHAIN
    ensures var o := Encrypt(p, s, x);
            && o.result == Ok((Header(p.publicOf(k.secrets[e]), PreviousLength(counts, e), counts[e]),
                               MessageKeys(MessageKey(p, k, e, counts[e]), counts[e])))
            && PartyInv(p, k, Bump(counts, e), delivered, e, o.state)
            && o.state.skipped == s.skipped
  {
    hide CacheInv, RootAt, EpochKey;
    ChainAtNumber(p.kdf, EpochKey(p, k, e), counts[e]);
    assert Reached(Bump(counts, e), e, s.recv) == Reached(counts, e, s.recv);
  }

  lemma ReceiverAfterSend(p: Primitives, k: Pairs, counts: seq<nat>, delivered: set<KeyId>, e: nat, s: Party, f: nat)
    requires e < |k.secrets| == |counts| && f < |counts| && PartyInv(p, k, counts, delivered, e, s)
    requires f == e + 1 || e == f + 1
    ensures PartyInv(p, k, Bump(counts, f), delivered, e, s)
  {
    hide CacheInv, RootAt, EpochKey;
    assert Reached(Bump(counts, f), e, s.recv) == Reached(counts, e, s.recv);
  }

  lemma NetAfterSend(p: Primitives, k: Pairs, counts: seq<nat>, net: seq<Envelope>, m: Envelope)
    requires |k.secrets| == |counts| && NetInv(p, k, counts, net)
    requires m.epoch < |counts| <= m.epoch + 2
    requires EnvelopeInv(p, k, Bump(counts, m.epoch), m)
    ensures NetInv(p, k, Bump(counts, m.epoch), net + [m])
  {
    hide RootAt, EpochKey, MessageKey;
    var all := net + [m];
    forall i | 0 <= i < |all|
      ensures EnvelopeInv(p, k, Bump(counts, m.epoch), all[i])
    {
      if i < |net| {
        assert all[i] == net[i] && EnvelopeInv(p, k, counts, net[i]);
      }
    }
  }

  lemma PeerIffEpoch(p: Primitives, k: Pairs, counts: seq<nat>, delivered: set<KeyId>, e: nat, s: Party, x: Secret)
    requires e < |k.secrets| == |counts| && PartyInv(p, k, counts, delivered, e, s)
    ensures s.peer.Some? <==> e > 0
    ensures e == 0 ==> Encrypt(p, s, x) == Encrypted(s, Err(NoPeerKey))
  {
    hide CacheInv, RootAt, EpochKey, ChainAt;
  }

  /** Sending keeps the invariant; only a party without a peer key cannot send, and then nothing changes. */
  lemma SendKeepsInv(p: Primitives, w: World, who: Role, x: Secret)
    requires Inv(p, w) && PartyOf(w, who).sent < MAX_MESSAGES_PER_CHAIN
    ensures Inv(p, SendStep(p, w, who, x))
    ensures Encrypt(p, PartyOf(w, who), x).result.Ok? <==> PartyOf(w, who).peer.Some?
    ensures PartyOf(w, who).peer.None? ==> SendStep(p, w, who, x) == w
  {
    hide PartyInv, DistinctPublics, DeliveredKnown, NetInv, MessageKey, Encrypt;
    var e, s := EpochOf(w, who), PartyOf(w, who);
    PeerIffEpoch(p, w.pairs, w.counts, w.delivered, e, s, x);
    if e > 0 {
      SenderAfterSend(p, w.pairs, w.counts, w.delivered, e, s, x);
      ReceiverAfterSend(p, w.pairs, w.counts, w.delivered, EpochOf(w, Other(who)), PartyOf(w, Other(who)), e);
      var (h, key) := Encrypt(p, s, x).result.value;
      NetAfterSend(p, w.pairs, w.counts, w.net, Envelope(who, h, key.key, e));
    }
  }

  // ------------------------------------------------------------------------------------------
  // Delivering keeps the invariant
  // ------------------------------------------------------------------------------------------

  /** Taking message `h.number` from a chain that has not passed it yields that message's key. */
  lemma TakeAhead(p: Primitives, s: Party, h: Header, root: Key, m: nat) returns (cache: map<KeyId, Key>)
    requires m <= h.number <= m + MAX_SKIP && s.recv == Some(ChainAt(p.kdf, root, m))
    ensures Stashed(p.kdf, root, h.dh, m, h.number, s.skipped, cache)
    ensures |cache| <= |s.skipped| + (h.number - m)
    ensures TakeFromChain(p, s, h)
            == Decrypted(s.(recv := Some(ChainAt(p.kdf, root, h.number + 1)), skipped := cache),
                         Ok(MessageKeys(StreamKey(p.kdf, root, h.number), h.number)))
  {
    hide Stashed, Stash;
    ChainAtNumber(p.kdf, root, m);
    ChainAtNumber(p.kdf, root, h.number);
    StashAlong(p.kdf, root, h.dh, m, s.skipped, h.number - m);
    StashSize(p.kdf, h.dh, s.recv.value, s.skipped, h.number - m);
    cache := Stash(p.kdf, h.dh, s.recv.value, s.skipped, h.number - m).1;
  }

  /** A message of the epoch a party is receiving in, not passed yet. */
  lemma TakeKeepsParty(p: Primitives, k: Pairs, counts: seq<nat>, delivered: set<KeyId>, e: nat, s: Party, h: Header)
    requires 2 <= e < |k.secrets| == |counts| && PartyInv(p, k, counts, delivered, e, s) && DistinctPublics(p, k)
    requires h.dh == p.publicOf(k.secrets[e - 1]) && s.recv.value.number <= h.number < counts[e - 1]
    requires h.number - s.recv.value.number <= MAX_SKIP
    ensures var o := TakeFromChain(p, s, h);
            && o.result == Ok(MessageKeys(MessageKey(p, k, e - 1, h.number), h.number))
            && PartyInv(p, k, counts, delivered + {Id(h)}, e, o.state)
            && |o.state.skipped| <= |s.skipped| + (h.number - s.recv.value.number)
            && o.state.public == s.public
  {
    hide CacheInv, RootAt, EpochKey, Stashed, DistinctPublics, TakeFromChain, ChainAt;
    var f, m := e - 1, s.recv.value.number;
    var reached := Reached(counts, e, s.recv);
    var cache := TakeAhead(p, s, h, EpochKey(p, k, f), m);
    ChainAtNumber(p.kdf, EpochKey(p, k, f), h.number + 1);
    CacheAfterStash(p, k, delivered, e, s.skipped, reached, f, h.number, cache);
    CacheAfterTake(p, k, delivered, e, cache, reached[f := h.number], f);
    var now: seq<nat> := reached[f := h.number];
    assert now[f := h.number + 1] == Reached(counts, e, Some(EpochChain(p, k, f, h.number + 1)));
  }

  /** A header with the next key pair: the party leaves its old receiving chain and makes a key pair itself. */
  lemma NewPairKeepsParty(p: Primitives, k: Pairs, counts: seq<nat>, delivered: set<KeyId>, e: nat, s: Party,
                          h: Header, x: Secret)
    requires Commutes(p)
    requires e + 2 == |k.secrets| == |counts| && counts[0] == 0 && PartyInv(p, k, counts, delivered, e, s)
    requires DistinctPublics(p, Extend(k, x)) && DistinctPublics(p, k) && DeliveredKnown(p, k, delivered)
    requires h.dh == p.publicOf(k.secrets[e + 1]) && h.previousChainLength == PreviousLength(counts, e + 1)
    ensures var t := NewReceiveChain(p, LeaveChain(p, s, h), h.dh, x);
            && PartyInv(p, Extend(k, x), counts + [0], delivered, e + 2, t)
            && t.recv.Some? && t.recv.value.number == 0
            && t.public == p.publicOf(x)
            && |t.skipped| <= |s.skipped| + SkipsOld(s, h)
  {
    hide CacheInv, DistinctPublics, DeliveredKnown, Stashed, Stash, LeaveChain, NewReceiveChain, RootAt, EpochChain;
    var k' := Extend(k, x);
    LeaveKeepsCache(p, k, counts, delivered, e, s, h);
    NewPairChains(p, k, counts, e, s, h, x);
    var left := LeaveChain(p, s, h);
    var t := NewReceiveChain(p, left, h.dh, x);
    var reached := if e >= 2 then Reached(counts, e, s.recv)[e - 1 := counts[e - 1]] else Reached(counts, e, s.recv);
    CacheExtends(p, k, delivered, e, left.skipped, reached, x);
    assert reached + [0] == Reached(counts + [0], e + 2, t.recv);
    SameParity(p, k', delivered, e, e + 2, t.skipped, reached + [0]);
  }

  lemma SameParity(p: Primitives, k: Pairs, delivered: set<KeyId>, e: nat, e': nat,
                   skipped: map<KeyId, Key>, reached: seq<nat>)
    requires e % 2 == e' % 2
    requires |reached| == |k.secrets| && CacheInv(p, k, delivered, e, skipped, reached)
    ensures CacheInv(p, k, delivered, e', skipped, reached)
  {
    hide RootAt, EpochKey, StreamKey;
    forall id | id in skipped
      ensures exists f :: HeldKey(p, k, e', skipped, reached, id, f)
    {
      var f :| HeldKey(p, k, e, skipped, reached, id, f);
      assert HeldKey(p, k, e', skipped, reached, id, f);
    }
    assert forall f: nat :: ReceivesIn(e, f) <==> ReceivesIn(e', f);
  }

  /** The keys still outstanding in the old receiving chain are all cached when it is left. */
  lemma LeaveKeepsCache(p: Primitives, k: Pairs, counts: seq<nat>, delivered: set<KeyId>, e: nat, s: Party, h: Header)
    requires e + 2 == |k.secrets| == |counts| && PartyInv(p, k, counts, delivered, e, s) && DistinctPublics(p, k)
    requires h.dh == p.publicOf(k.secrets[e + 1]) && h.previousChainLength == PreviousLength(counts, e + 1)
    ensures var left, reached := LeaveChain(p, s, h), Reached(counts, e, s.recv);
            && left == s.(recv := None, skipped := left.skipped)
            && CacheInv(p, k, delivered, e, left.skipped, if e >= 2 then reached[e - 1 := counts[e - 1]] else reached)
            && |left.skipped| <= |s.skipped| + SkipsOld(s, h)
  {
    hide CacheInv, RootAt, EpochKey, Stashed, Stash, ChainAt;
    if e >= 2 {
      var f, m := e - 1, s.recv.value.number;
      assert NeedsStep(s, h) by { OldPairIsOld(p, k, e); }
      StashAlong(p.kdf, EpochKey(p, k, f), p.publicOf(k.secrets[f]), m, s.skipped, counts[f] - m);
      StashSize(p.kdf, p.publicOf(k.secrets[f]), s.recv.value, s.skipped, counts[f] - m);
      var cache := Stash(p.kdf, p.publicOf(k.secrets[f]), s.recv.value, s.skipped, counts[f] - m).1;
      CacheAfterStash(p, k, delivered, e, s.skipped, Reached(counts, e, s.recv), f, counts[f], cache);
    }
  }

  lemma OldPairIsOld(p: Primitives, k: Pairs, e: nat)
    requires 1 <= e && e + 1 < |k.secrets| && DistinctPublics(p, k)
    ensures p.publicOf(k.secrets[e - 1]) != p.publicOf(k.secrets[e + 1])
  {
  }

  lemma NewPairChains(p: Primitives, k: Pairs, counts: seq<nat>, e: nat, s: Party, h: Header, x: Secret)
    requires Commutes(p)
    requires e + 2 == |k.secrets| == |counts| && counts[0] == 0 && ChainsInv(p, k, counts, e, s)
    requires h.dh == p.publicOf(k.secrets[e + 1])
    ensures var t := NewReceiveChain(p, LeaveChain(p, s, h), h.dh, x);
            && ChainsInv(p, Extend(k, x), counts + [0], e + 2, t)
            && t.recv.Some? && t.recv.value.number == 0
            && t.skipped == LeaveChain(p, s, h).skipped
  {
    hide Stash, ChainAt, StreamKey;
    var k' := Extend(k, x);
    RootAtPrefix(p, k, x, e);
    assert p.diffieHellman(s.secret, h.dh) == Shared(p, k', e + 1);
    assert p.diffieHellman(x, h.dh) == Shared(p, k', e + 2);
    assert RootAt(p, k', e + 1) == p.kdfRoot(RootAt(p, k', e), Shared(p, k', e + 1));
    assert RootAt(p, k', e + 2) == p.kdfRoot(RootAt(p, k', e + 1), Shared(p, k', e + 2));
    StartIsZero(p.kdf, EpochKey(p, k', e + 1));
    StartIsZero(p.kdf, EpochKey(p, k', e + 2));
    if e >= 1 {
      ChainAtNumber(p.kdf, EpochKey(p, k, e), counts[e]);
    }
  }

  lemma StartIsZero(kdf: Kdf, root: Key)
    ensures Start(kdf, root) == ChainAt(kdf, root, 0)
  {
  }

  /** The other party when a message it sent has been decrypted. */
  lemma SenderAfterDelivery(p: Primitives, k: Pairs, counts: seq<nat>, delivered: set<KeyId>, e: nat, s: Party,
                            f: nat, n: nat)
    requires e < |k.secrets| == |counts| && f < |counts| && f % 2 == e % 2
    requires DistinctPublics(p, k) && PartyInv(p, k, counts, delivered, e, s)
    ensures PartyInv(p, k, counts, delivered + {MessageId(p, k, f, n)}, e, s)
  {
    hide ChainsInv, CacheInv;
    CacheOfOtherSide(p, k, delivered, e, s.skipped, Reached(counts, e, s.recv), f, n);
  }

  /** The other party when a new key pair has been made. */
  lemma SenderAfterNewPair(p: Primitives, k: Pairs, counts: seq<nat>, delivered: set<KeyId>, e: nat, s: Party,
                           x: Secret)
    requires e < |k.secrets| == |counts| && PartyInv(p, k, counts, delivered, e, s)
    requires DistinctPublics(p, Extend(k, x)) && DeliveredKnown(p, k, delivered)
    ensures PartyInv(p, Extend(k, x), counts + [0], delivered, e, s)
  {
    hide CacheInv, DistinctPublics, DeliveredKnown, RootAt, EpochKey;
    CacheExtends(p, k, delivered, e, s.skipped, Reached(counts, e, s.recv), x);
    assert Reached(counts, e, s.recv) + [0] == Reached(counts + [0], e, s.recv);
    RootAtPrefix(p, k, x, e);
    if e >= 1 {
      EpochKeyPrefix(p, k, x, e);
    }
    if e >= 2 {
      EpochKeyPrefix(p, k, x, e - 1);
    }
  }

  lemma NetAfterNewPair(p: Primitives, k: Pairs, counts: seq<nat>, net: seq<Envelope>, x: Secret)
    requires |k.secrets| == |counts| && NetInv(p, k, counts, net)
    ensures NetInv(p, Extend(k, x), counts + [0], net)
  {
    hide RootAt, EpochKey, StreamKey;
    forall i | 0 <= i < |net|
      ensures EnvelopeInv(p, Extend(k, x), counts + [0], net[i])
    {
      assert EnvelopeInv(p, k, counts, net[i]);
      EpochKeyPrefix(p, k, x, net[i].epoch);
    }
  }

  lemma KnownAfterNewPair(p: Primitives, k: Pairs, delivered: set<KeyId>, x: Secret)
    requires DeliveredKnown(p, k, delivered)
    ensures DeliveredKnown(p, Extend(k, x), delivered)
  {
    forall id | id in delivered
      ensures KnownPublic(p, Extend(k, x), id.0)
    {
      var i :| 0 <= i < |k.secrets| && id.0 == p.publicOf(k.secrets[i]);
      assert Extend(k, x).secrets[i] == k.secrets[i];
    }
  }

  lemma DistinctAfterNewPair(p: Primitives, w: World, x: Secret)
    requires DistinctPublics(p, w.pairs) && FreshSecret(p, w, x)
    ensures DistinctPublics(p, Extend(w.pairs, x))
  {
  }

  lemma CacheSays(p: Primitives, k: Pairs, delivered: set<KeyId>, e: nat, skipped: map<KeyId, Key>,
                  reached: seq<nat>, f: nat, n: nat)
    requires |reached| == |k.secrets| && ReceivesIn(e, f) && f < |k.secrets|
    requires DistinctPublics(p, k) && CacheInv(p, k, delivered, e, skipped, reached)
    ensures var id := MessageId(p, k, f, n);
            && (id in skipped ==> id !in delivered && skipped[id] == MessageKey(p, k, f, n))
            && (id in skipped || id in delivered <==> n < reached[f])
  {
    hide RootAt, EpochKey, StreamKey;
    var id := MessageId(p, k, f, n);
    if id in skipped {
      var g :| HeldKey(p, k, e, skipped, reached, id, g);
    }
  }

  ghost predicate AllOthersKept(p: Primitives, w: World, who: Role) {
    && EpochsInv(w) && DistinctPublics(p, w.pairs) && DeliveredKnown(p, w.pairs, w.delivered)
    && PartyInv(p, w.pairs, w.counts, w.delivered, EpochOf(w, Other(who)), PartyOf(w, Other(who)))
    && NetInv(p, w.pairs, w.counts, w.net)
    && |PartyOf(w, Other(who)).skipped| <= MAX_SKIPPED_KEY_CACHE
  }

  lemma Split(p: Primitives, w: World, who: Role)
    requires EpochsInv(w)
    ensures Inv(p, w) <==> (&& AllOthersKept(p, w, who)
                            && PartyInv(p, w.pairs, w.counts, w.delivered, EpochOf(w, who), PartyOf(w, who))
                            && |PartyOf(w, who).skipped| <= MAX_SKIPPED_KEY_CACHE)
  {
    hide DistinctPublics, DeliveredKnown, PartyInv, NetInv;
  }

  function WithDelivered(w: World, id: KeyId): World {
    w.(delivered := w.delivered + {id})
  }

  function WithPair(w: World, who: Role, x: Secret): World {
    w.(pairs := Extend(w.pairs, x), counts := w.counts + [0],
       aliceEpoch := if who == Alice then |w.pairs.secrets| else w.aliceEpoch,
       bobEpoch := if who == Bob then |w.pairs.secrets| else w.bobEpoch)
  }

  lemma OthersAfterDelivery(p: Primitives, w: World, who: Role, s: Party, f: nat, n: nat)
    requires AllOthersKept(p, w, who) && f < |w.counts| && f % 2 == EpochOf(w, Other(who)) % 2
    ensures AllOthersKept(p, WithDelivered(WithParty(w, who, s), MessageId(p, w.pairs, f, n)), who)
  {
    hide DistinctPublics, PartyInv, NetInv;
    SenderAfterDelivery(p, w.pairs, w.counts, w.delivered, EpochOf(w, Other(who)), PartyOf(w, Other(who)), f, n);
  }

  lemma OthersAfterNewPair(p: Primitives, w: World, who: Role, s: Party, x: Secret)
    requires AllOthersKept(p, w, who) && FreshSecret(p, w, x) && EpochOf(w, who) + 2 == |w.pairs.secrets|
    ensures AllOthersKept(p, WithPair(WithParty(w, who, s), who, x), who)
  {
    hide DistinctPublics, DeliveredKnown, PartyInv, NetInv, FreshSecret;
    DistinctAfterNewPair(p, w, x);
    KnownAfterNewPair(p, w.pairs, w.delivered, x);
    SenderAfterNewPair(p, w.pairs, w.counts, w.delivered, EpochOf(w, Other(who)), PartyOf(w, Other(who)), x);
    NetAfterNewPair(p, w.pairs, w.counts, w.net, x);
  }

  /** `m` is a message of the peer of `who`, as the invariant has it. */
  ghost predicate FromPeer(p: Primitives, w: World, who: Role, m: Envelope) {
    && |w.pairs.secrets| == |w.counts|
    && EnvelopeInv(p, w.pairs, w.counts, m)
    && m.sender == Other(who)
  }

  lemma FromPeerEpoch(p: Primitives, w: World, who: Role, m: Envelope)
    requires EpochsInv(w) && FromPeer(p, w, who, m)
    ensures ReceivesIn(EpochOf(w, who), m.epoch)
    ensures m.epoch == EpochOf(w, who) + 1 ==> EpochOf(w, who) + 2 == |w.counts|
    ensures m.epoch <= EpochOf(w, who) + 1
    ensures Id(m.header) == MessageId(p, w.pairs, m.epoch, m.header.number)
  {
  }

  /** A header whose key was cached: the key is the sender's, and it leaves the cache. */
  lemma ReceiveCached(p: Primitives, k: Pairs, counts: seq<nat>, delivered: set<KeyId>, e: nat, s: Party,
                      f: nat, h: Header, x: Secret)
    requires e < |k.secrets| == |counts| && PartyInv(p, k, counts, delivered, e, s) && DistinctPublics(p, k)
    requires ReceivesIn(e, f) && f < |counts| && Id(h) == MessageId(p, k, f, h.number) && Id(h) in s.skipped
    ensures var o := Decrypt(p, s, h, x);
            && Id(h) !in delivered
            && o.result == Ok(MessageKeys(MessageKey(p, k, f, h.number), h.number))
            && PartyInv(p, k, counts, delivered + {Id(h)}, e, o.state)
            && |o.state.skipped| <= |s.skipped|
            && o.state.public == s.public
  {
    hide DistinctPublics, CacheInv, RootAt, EpochKey, ChainAt;
    CacheSays(p, k, delivered, e, s.skipped, Reached(counts, e, s.recv), f, h.number);
    CacheAfterHit(p, k, delivered, e, s.skipped, Reached(counts, e, s.recv), Id(h));
    SubsetSize((s.skipped - {Id(h)}).Keys, s.skipped.Keys);
  }

  lemma SubsetSize<T>(a: set<T>, b: set<T>)
    requires a <= b
    ensures |a| <= |b|
  {
    assert b == a + (b - a);
  }

  /** A header of the epoch being received, its key not in the cache. */
  lemma ReceiveCurrent(p: Primitives, k: Pairs, counts: seq<nat>, delivered: set<KeyId>, e: nat, s: Party,
                       h: Header, x: Secret)
    requires 2 <= e < |k.secrets| == |counts| && PartyInv(p, k, counts, delivered, e, s) && DistinctPublics(p, k)
    requires h.dh == p.publicOf(k.secrets[e - 1]) && h.number < counts[e - 1] && Id(h) !in s.skipped
    ensures var o := Decrypt(p, s, h, x);
            && SkipsOld(s, h) == 0
            && (Id(h) in delivered ==> o == Decrypted(s, Err(ReplayDetected(h.number))))
            && (Id(h) !in delivered ==> (o.result.Ok? <==> SkipsNew(s, h) <= MAX_SKIP))
            && (Id(h) !in delivered && o.result.Ok? ==>
                  && o.result == Ok(MessageKeys(MessageKey(p, k, e - 1, h.number), h.number))
                  && PartyInv(p, k, counts, delivered + {Id(h)}, e, o.state)
                  && |o.state.skipped| <= |s.skipped| + SkipsNew(s, h)
                  && o.state.public == s.public)
  {
    hide DistinctPublics, CacheInv, RootAt, EpochKey, ChainAt, Stash, StreamKey;
    CacheSays(p, k, delivered, e, s.skipped, Reached(counts, e, s.recv), e - 1, h.number);
    assert Id(h) == MessageId(p, k, e - 1, h.number);
    assert Decrypt(p, s, h, x) == TakeFromChain(p, s, h);
    if Id(h) !in delivered && SkipsNew(s, h) <= MAX_SKIP {
      TakeKeepsParty(p, k, counts, delivered, e, s, h);
    }
  }

  /** A header of the next epoch: the first one seen from a new key pair. */
  lemma ReceiveNew(p: Primitives, k: Pairs, counts: seq<nat>, delivered: set<KeyId>, e: nat, s: Party,
                   h: Header, x: Secret)
    requires Commutes(p)
    requires e + 2 == |k.secrets| == |counts| && counts[0] == 0 && PartyInv(p, k, counts, delivered, e, s)
    requires DistinctPublics(p, Extend(k, x)) && DistinctPublics(p, k) && DeliveredKnown(p, k, delivered)
    requires h.dh == p.publicOf(k.secrets[e + 1]) && h.previousChainLength == PreviousLength(counts, e + 1)
    requires h.number < counts[e + 1]
    ensures var o := Decrypt(p, s, h, x);
            && Id(h) !in s.skipped && Id(h) !in delivered
            && (o.result.Ok? <==> SkipsOld(s, h) <= MAX_SKIP && SkipsNew(s, h) <= MAX_SKIP)
            && (o.result.Ok? ==>
                  && o.result == Ok(MessageKeys(MessageKey(p, k, e + 1, h.number), h.number))
                  && PartyInv(p, Extend(k, x), counts + [0], delivered + {Id(h)}, e + 2, o.state)
                  && |o.state.skipped| <= |s.skipped| + SkipsOld(s, h) + SkipsNew(s, h)
                  && o.state.public == p.publicOf(x))
  {
    hide DistinctPublics, DeliveredKnown, CacheInv, ChainsInv, RootAt, EpochKey, ChainAt, Stash, StreamKey;
    hide LeaveChain, NewReceiveChain, TakeFromChain;
    CacheSays(p, k, delivered, e, s.skipped, Reached(counts, e, s.recv), e + 1, h.number);
    assert Id(h) == MessageId(p, k, e + 1, h.number);
    NewPairIsNew(p, k, counts, e, s);
    var t := NewReceiveChain(p, LeaveChain(p, s, h), h.dh, x);
    assert SkipsOld(s, h) <= MAX_SKIP ==> Decrypt(p, s, h, x) == TakeFromChain(p, t, h);
    if SkipsOld(s, h) <= MAX_SKIP {
      NewPairKeepsParty(p, k, counts, delivered, e, s, h, x);
      TakeFresh(p, t, h);
      if h.number <= MAX_SKIP {
        NewEpochKey(p, k, x, e + 1, h.number);
        TakeKeepsParty(p, Extend(k, x), counts + [0], delivered, e + 2, t, h);
      }
    }
  }

  lemma TakeFresh(p: Primitives, s: Party, h: Header)
    requires s.recv.Some? && s.recv.value.number == 0
    ensures TakeFromChain(p, s, h).result.Ok? <==> h.number <= MAX_SKIP
  {
    hide Stash;
  }

  lemma NewPairIsNew(p: Primitives, k: Pairs, counts: seq<nat>, e: nat, s: Party)
    requires e + 1 < |k.secrets| == |counts| && ChainsInv(p, k, counts, e, s) && DistinctPublics(p, k)
    ensures s.peer != Some(p.publicOf(k.secrets[e + 1]))
  {
    hide RootAt, EpochChain;
    if e >= 1 {
      OldPairIsOld(p, k, e);
    }
  }

  lemma NewEpochKey(p: Primitives, k: Pairs, x: Secret, e: nat, n: nat)
    requires 1 <= e < |k.secrets|
    ensures MessageKey(p, Extend(k, x), e, n) == MessageKey(p, k, e, n)
  {
    EpochKeyPrefix(p, k, x, e);
  }

  /** A header of an earlier epoch whose key is gone has been decrypted, and must not be delivered again. */
  lemma OldIsDelivered(p: Primitives, k: Pairs, counts: seq<nat>, delivered: set<KeyId>, e: nat, s: Party,
                       f: nat, n: nat)
    requires e < |k.secrets| == |counts| && PartyInv(p, k, counts, delivered, e, s) && DistinctPublics(p, k)
    requires ReceivesIn(e, f) && f + 1 < e && n < counts[f] && MessageId(p, k, f, n) !in s.skipped
    ensures MessageId(p, k, f, n) in delivered
    ensures s.peer != Some(p.publicOf(k.secrets[f]))
  {
    hide CacheInv, RootAt, EpochChain;
    CacheSays(p, k, delivered, e, s.skipped, Reached(counts, e, s.recv), f, n);
  }

  // ------------------------------------------------------------------------------------------
  // Main results
  // ------------------------------------------------------------------------------------------

  /**
   * In a world that satisfies the invariant, decrypting a message of the peer succeeds exactly if it has not
   * been decrypted before and the limits on skipping allow it; it then gives the key the sender derived. A
   * header decrypted before is refused as a replay. Within the bound on the cache the invariant is kept.
   */
  lemma DeliveryAgrees(p: Primitives, w: World, who: Role, i: nat, x: Secret)
    requires Commutes(p) && Inv(p, w) && Deliverable(p, w, Deliver(who, i, x))
    ensures var m, s := w.net[i], PartyOf(w, who);
            var r := Receive(p, w, who, m.header, x).result;
            && (r.Ok? <==> Id(m.header) !in w.delivered
                           && (Id(m.header) in s.skipped
                               || (SkipsOld(s, m.header) <= MAX_SKIP && SkipsNew(s, m.header) <= MAX_SKIP)))
            && (r.Ok? ==> r == Ok(MessageKeys(m.key, m.header.number)))
            && (Id(m.header) in w.delivered ==> r == Err(ReplayDetected(m.header.number)))
            && (WithinBounds(s, m.header) ==> Inv(p, DeliverStep(p, w, who, m.header, x)))
  {
    hide DistinctPublics, DeliveredKnown, PartyInv, FreshSecret, Decrypt, AllOthersKept, MessageKey;
    var m, s, e := w.net[i], PartyOf(w, who), EpochOf(w, who);
    Split(p, w, who);
    assert EnvelopeInv(p, w.pairs, w.counts, m);
    FromPeerEpoch(p, w, who, m);
    if Id(m.header) in s.skipped {
      ReceiveCached(p, w.pairs, w.counts, w.delivered, e, s, m.epoch, m.header, x);
      SamePairInv(p, w, who, m, x);
    } else if m.epoch == e + 1 {
      DistinctAfterNewPair(p, w, x);
      ReceiveNew(p, w.pairs, w.counts, w.delivered, e, s, m.header, x);
      if WithinBounds(s, m.header) {
        NewPairInv(p, w, who, m, x);
      }
    } else if m.epoch + 1 == e {
      ReceiveCurrent(p, w.pairs, w.counts, w.delivered, e, s, m.header, x);
      if Id(m.header) in w.delivered {
        assert DeliverStep(p, w, who, m.header, x) == w;
      } else if WithinBounds(s, m.header) {
        SamePairInv(p, w, who, m, x);
      }
    } else {
      OldIsDelivered(p, w.pairs, w.counts, w.delivered, e, s, m.epoch, m.header.number);
      assert false;
    }
  }

  lemma SamePairInv(p: Primitives, w: World, who: Role, m: Envelope, x: Secret)
    requires Inv(p, w) && FromPeer(p, w, who, m)
    requires var o := Receive(p, w, who, m.header, x);
             && o.result.Ok? && o.state.public == PartyOf(w, who).public
             && |o.state.skipped| <= MAX_SKIPPED_KEY_CACHE
             && PartyInv(p, w.pairs, w.counts, w.delivered + {Id(m.header)}, EpochOf(w, who), o.state)
    ensures Inv(p, DeliverStep(p, w, who, m.header, x))
  {
    hide DistinctPublics, DeliveredKnown, PartyInv, NetInv, AllOthersKept, Receive;
    var t := Receive(p, w, who, m.header, x).state;
    FromPeerEpoch(p, w, who, m);
    Split(p, w, who);
    OthersAfterDelivery(p, w, who, t, m.epoch, m.header.number);
    var w' := DeliverStep(p, w, who, m.header, x);
    assert w' == WithDelivered(WithParty(w, who, t), Id(m.header));
    Split(p, w', who);
  }

  lemma NewPairInv(p: Primitives, w: World, who: Role, m: Envelope, x: Secret)
    requires Inv(p, w) && FromPeer(p, w, who, m) && FreshSecret(p, w, x) && m.epoch == EpochOf(w, who) + 1
    requires var o := Receive(p, w, who, m.header, x);
             && o.result.Ok? && o.state.public == p.publicOf(x)
             && |o.state.skipped| <= MAX_SKIPPED_KEY_CACHE
             && PartyInv(p, Extend(w.pairs, x), w.counts + [0], w.delivered + {Id(m.header)},
                         EpochOf(w, who) + 2, o.state)
    ensures Inv(p, DeliverStep(p, w, who, m.header, x))
  {
    hide DistinctPublics, DeliveredKnown, PartyInv, NetInv, AllOthersKept, Receive, DeliverStep;
    var t := Receive(p, w, who, m.header, x).state;
    FromPeerEpoch(p, w, who, m);
    Split(p, w, who);
    NewPairStep(p, w, who, m, x);
    OthersAfterNewPair(p, w, who, t, x);
    var v := WithPair(WithParty(w, who, t), who, x);
    OthersAfterDelivery(p, v, who, t, m.epoch, m.header.number);
    Split(p, DeliverStep(p, w, who, m.header, x), who);
  }

  lemma NewPairStep(p: Primitives, w: World, who: Role, m: Envelope, x: Secret)
    requires Inv(p, w) && FromPeer(p, w, who, m) && FreshSecret(p, w, x)
    requires Receive(p, w, who, m.header, x).result.Ok?
    requires Receive(p, w, who, m.header, x).state.public == p.publicOf(x)
    ensures var t := Receive(p, w, who, m.header, x).state;
            var v := WithPair(WithParty(w, who, t), who, x);
            && DeliverStep(p, w, who, m.header, x) == WithDelivered(WithParty(v, who, t), Id(m.header))
            && m.epoch < |v.pairs.secrets|
            && MessageId(p, v.pairs, m.epoch, m.header.number) == Id(m.header)
  {
    hide DistinctPublics, DeliveredKnown, CacheInv, NetInv, Receive, RootAt, EpochChain;
  }

  lemma StepKeepsInv(p: Primitives, w: World, a: Action)
    requires Commutes(p) && Inv(p, w) && Enabled(p, w, a)
    ensures Inv(p, Step(p, w, a))
  {
    hide Inv, SendStep, DeliverStep, WithinBounds, Deliverable;
    match a
    case Send(who, x) => SendKeepsInv(p, w, who, x);
    case Deliver(who, i, x) => DeliveryAgrees(p, w, who, i, x);
  }

  lemma {:induction false} RunKeepsInv(p: Primitives, w: World, actions: seq<Action>)
    requires Commutes(p) && Inv(p, w) && ValidRun(p, w, actions)
    ensures Inv(p, After(p, w, actions))
    decreases |actions|
  {
    hide Inv, Step, Enabled;
    if actions != [] {
      StepKeepsInv(p, w, actions[0]);
      RunKeepsInv(p, Step(p, w, actions[0]), actions[1..]);
    }
  }

  /** An undelivered message that may be delivered within the bounds decrypts to the key its sender derived. */
  ghost predicate Agrees(p: Primitives, w: World, who: Role, i: nat, x: Secret) {
    Enabled(p, w, Deliver(who, i, x)) && Id(w.net[i].header) !in w.delivered ==>
      Receive(p, w, who, w.net[i].header, x).result == Ok(MessageKeys(w.net[i].key, w.net[i].header.number))
  }

  /** After any run within the bounds, every delivery within the bounds agrees with the sender. */
  lemma Agreement(p: Primitives, root: Key, bobSecret: Secret, aliceSecret: Secret, actions: seq<Action>)
    requires Commutes(p) && p.publicOf(bobSecret) != p.publicOf(aliceSecret)
    requires ValidRun(p, InitialWorld(p, root, bobSecret, aliceSecret), actions)
    ensures var w := After(p, InitialWorld(p, root, bobSecret, aliceSecret), actions);
            forall who, i: nat, x :: Agrees(p, w, who, i, x)
  {
    hide Inv, Receive, FreshSecret, InitialWorld, WithinBounds;
    InitialInv(p, root, bobSecret, aliceSecret);
    var w := After(p, InitialWorld(p, root, bobSecret, aliceSecret), actions);
    RunKeepsInv(p, InitialWorld(p, root, bobSecret, aliceSecret), actions);
    forall who, i: nat, x | Enabled(p, w, Deliver(who, i, x))
      ensures Agrees(p, w, who, i, x)
    {
      DeliveryAgrees(p, w, who, i, x);
      BoundsAllowIt(PartyOf(w, who), w.net[i].header);
    }
  }

  lemma BoundsAllowIt(s: Party, h: Header)
    requires WithinBounds(s, h)
    ensures Id(h) in s.skipped || (SkipsOld(s, h) <= MAX_SKIP && SkipsNew(s, h) <= MAX_SKIP)
  {
  }

  /** One party's root key is one root step ahead of the other's, over the two current key pairs. */
  ghost predicate OneStepApart(p: Primitives, ahead: Party, behind: Party) {
    && ahead.peer == Some(behind.public)
    && ahead.root == p.kdfRoot(behind.root, p.diffieHellman(ahead.secret, behind.public))
  }

  /**
   * The header belongs to an epoch of its sender that has begun; it carries that epoch's key pair and the final
   * length of its sender's preceding epoch; and its receiver's epoch is at most one behind, so no key pair is
   * skipped.
   */
  ghost predicate HeaderInStep(p: Primitives, w: World, m: Envelope) {
    && 1 <= m.epoch < |w.counts| == |w.pairs.secrets|
    && m.sender == SenderOf(m.epoch)
    && m.epoch <= EpochOf(w, Other(m.sender)) + 1
    && m.header.dh == p.publicOf(w.pairs.secrets[m.epoch])
    && m.header.number < w.counts[m.epoch]
    && m.header.previousChainLength == PreviousLength(w.counts, m.epoch)
  }

  lemma NetInStep(p: Primitives, w: World)
    requires Inv(p, w)
    ensures forall m :: m in w.net ==> HeaderInStep(p, w, m)
  {
    hide PartyInv, DistinctPublics, DeliveredKnown, NetInv, EpochsInv, EnvelopeInv, HeaderInStep;
    forall m | m in w.net
      ensures HeaderInStep(p, w, m)
    {
      var i: nat :| i < |w.net| && w.net[i] == m;
      NetSays(p, w, i);
      EnvelopeInStep(p, w, m);
    }
  }

  lemma EnvelopeInStep(p: Primitives, w: World, m: Envelope)
    requires EpochsInv(w) && EnvelopeInv(p, w.pairs, w.counts, m)
    ensures HeaderInStep(p, w, m)
  {
    hide MessageKey;
    FromPeerEpoch(p, w, Other(m.sender), m);
  }

  /** What the invariant says of a party: its own key pair, its root key, and a sending chain if it has a peer. */
  lemma ChainsSay(p: Primitives, w: World, who: Role)
    requires Inv(p, w)
    ensures var s, e := PartyOf(w, who), EpochOf(w, who);
            && e < |w.pairs.secrets| && s.secret == w.pairs.secrets[e] && s.public == p.publicOf(s.secret)
            && s.root == RootAt(p, w.pairs, e)
            && s.peer == (if e == 0 then None else Some(p.publicOf(w.pairs.secrets[e - 1])))
            && (s.peer.Some? <==> s.send.Some?)
  {
    hide CacheInv, DistinctPublics, DeliveredKnown, NetInv, RootAt, EpochChain;
  }

  lemma EpochInRange(p: Primitives, w: World, who: Role)
    requires Inv(p, w)
    ensures EpochOf(w, who) < |w.counts| == |w.pairs.secrets|
  {
    hide PartyInv, DistinctPublics, DeliveredKnown, NetInv;
  }

  lemma RootStep(p: Primitives, k: Pairs, e: nat)
    requires e + 1 < |k.secrets|
    ensures RootAt(p, k, e + 1)
         == p.kdfRoot(RootAt(p, k, e), p.diffieHellman(k.secrets[e + 1], p.publicOf(k.secrets[e])))
  {
  }

  /**
   * After any run: one party's root key is one root step ahead of the other's; a party with a peer key has a
   * sending chain; every header on the network is in step, and both caches are within their bound.
   */
  lemma RootsInStep(p: Primitives, root: Key, bobSecret: Secret, aliceSecret: Secret, actions: seq<Action>)
    requires Commutes(p) && p.publicOf(bobSecret) != p.publicOf(aliceSecret)
    requires ValidRun(p, InitialWorld(p, root, bobSecret, aliceSecret), actions)
    ensures var w := After(p, InitialWorld(p, root, bobSecret, aliceSecret), actions);
            && ((w.aliceEpoch == w.bobEpoch + 1 && OneStepApart(p, w.alice, w.bob))
                || (w.bobEpoch == w.aliceEpoch + 1 && OneStepApart(p, w.bob, w.alice)))
            && (w.alice.peer.Some? <==> w.alice.send.Some?) && (w.bob.peer.Some? <==> w.bob.send.Some?)
            && |w.alice.skipped| <= MAX_SKIPPED_KEY_CACHE && |w.bob.skipped| <= MAX_SKIPPED_KEY_CACHE
            && (forall m :: m in w.net ==> HeaderInStep(p, w, m))
  {
    hide InitialWorld, ValidRun, After, Inv;
    InitialInv(p, root, bobSecret, aliceSecret);
    RunKeepsInv(p, InitialWorld(p, root, bobSecret, aliceSecret), actions);
    WorldInStep(p, After(p, InitialWorld(p, root, bobSecret, aliceSecret), actions));
  }

  lemma WorldInStep(p: Primitives, w: World)
    requires Inv(p, w)
    ensures (w.aliceEpoch == w.bobEpoch + 1 && OneStepApart(p, w.alice, w.bob))
         || (w.bobEpoch == w.aliceEpoch + 1 && OneStepApart(p, w.bob, w.alice))
    ensures (w.alice.peer.Some? <==> w.alice.send.Some?) && (w.bob.peer.Some? <==> w.bob.send.Some?)
    ensures |w.alice.skipped| <= MAX_SKIPPED_KEY_CACHE && |w.bob.skipped| <= MAX_SKIPPED_KEY_CACHE
    ensures forall m :: m in w.net ==> HeaderInStep(p, w, m)
  {
    hide PartyInv, DistinctPublics, DeliveredKnown, NetInv, RootAt, HeaderInStep;
    NetInStep(p, w);
    ChainsSay(p, w, Alice);
    ChainsSay(p, w, Bob);
    RootStep(p, w.pairs, if w.aliceEpoch < w.bobEpoch then w.aliceEpoch else w.bobEpoch);
  }

  // ------------------------------------------------------------------------------------------
  // A header delivered a second time
  // ------------------------------------------------------------------------------------------

  /** A header with another key pair than the current one, its key not cached, makes the party step to it. */
  lemma NewPairKey(p: Primitives, s: Party, h: Header, x: Secret)
    requires NeedsStep(s, h) && Id(h) !in s.skipped
    ensures var o, dh := Decrypt(p, s, h, x), p.diffieHellman(s.secret, h.dh);
            && (o.result.Ok? <==> SkipsOld(s, h) <= MAX_SKIP && h.number <= MAX_SKIP)
            && (o.result.Ok? ==>
                  o.result == Ok(MessageKeys(StreamKey(p.kdf, p.kdfChain(s.root, dh), h.number), h.number)))
            && (SkipsOld(s, h) > MAX_SKIP ==> o.state == s.(recv := None))
            && (SkipsOld(s, h) <= MAX_SKIP ==>
                  && o.state.peer == Some(h.dh) && o.state.secret == x && o.state.public == p.publicOf(x)
                  && o.state.root == p.kdfRoot(p.kdfRoot(s.root, dh), p.diffieHellman(x, h.dh)))
  {
    hide LeaveChain, TakeFromChain, StreamKey, ChainAt;
    if SkipsOld(s, h) <= MAX_SKIP {
      var l := LeaveChain(p, s, h);
      LeaveKeepsKeys(p, s, h);
      var t := NewReceiveChain(p, l, h.dh, x);
      StartIsZero(p.kdf, p.kdfChain(s.root, p.diffieHellman(s.secret, h.dh)));
      TakeStarted(p, t, h, p.kdfChain(s.root, p.diffieHellman(s.secret, h.dh)));
    }
  }

  /** Taking a message from a chain that has just started. */
  lemma TakeStarted(p: Primitives, s: Party, h: Header, root: Key)
    requires s.recv == Some(ChainAt(p.kdf, root, 0)) && s.recv.value.number == 0
    ensures var o := TakeFromChain(p, s, h);
            && (o.result.Ok? <==> h.number <= MAX_SKIP)
            && (o.result.Ok? ==> o.result == Ok(MessageKeys(StreamKey(p.kdf, root, h.number), h.number)))
            && o.state.peer == s.peer && o.state.secret == s.secret && o.state.public == s.public
            && o.state.root == s.root
  {
    hide Stash, ChainAt;
    if h.number <= MAX_SKIP {
      StashAlong(p.kdf, root, h.dh, 0, s.skipped, h.number);
      ChainAtNumber(p.kdf, root, h.number);
    }
  }

  lemma LeaveKeepsKeys(p: Primitives, s: Party, h: Header)
    ensures var t := LeaveChain(p, s, h); t.root == s.root && t.secret == s.secret
  {
    hide Stash;
  }

  /** The world does not change. */
  predicate Refused(p: Primitives, w: World, who: Role, h: Header, x: Secret) {
    Receive(p, w, who, h, x) == Decrypted(PartyOf(w, who), Err(ReplayDetected(h.number)))
  }

  /**
   * A decrypted header delivered again is refused, and changes nothing, exactly while its key pair is the
   * receiver's current one. For an older one the receiver either loses its receiving chain, or takes the key
   * pair for a new one and steps to it.
   */
  lemma DuplicateIsHarmlessIff(p: Primitives, w: World, who: Role, i: nat, x: Secret)
    requires Inv(p, w) && FreshSecret(p, w, x) && i < |w.net| && w.net[i].sender == Other(who)
    requires Id(w.net[i].header) in w.delivered
    ensures var h, s := w.net[i].header, PartyOf(w, who);
            var o := Receive(p, w, who, h, x);
            && (DeliverStep(p, w, who, h, x) == w <==> s.peer == Some(h.dh))
            && (Refused(p, w, who, h, x) <==> s.peer == Some(h.dh))
            && (s.peer != Some(h.dh) ==>
                  && (SkipsOld(s, h) > MAX_SKIP ==> o.state == s.(recv := None) && s.recv.Some? && o.result.Err?)
                  && (SkipsOld(s, h) <= MAX_SKIP ==>
                        && o.state.peer == Some(h.dh) && o.state.public == p.publicOf(x) != s.public
                        && (o.result.Ok? <==> h.number <= MAX_SKIP)))
  {
    hide CacheInv, DeliveredKnown, NetInv, DistinctPublics, RootAt, EpochChain, Decrypt, MessageKey, StreamKey;
    var m, s, e := w.net[i], PartyOf(w, who), EpochOf(w, who);
    DuplicateEpoch(p, w, who, m);
    ChainsSay(p, w, who);
    if m.epoch + 1 == e {
      ReceiveCurrent(p, w.pairs, w.counts, w.delivered, e, s, m.header, x);
    } else {
      NewPairKey(p, s, m.header, x);
      assert p.publicOf(w.pairs.secrets[e]) != p.publicOf(x);
    }
  }

  /** A decrypted header is of an epoch the receiver has seen, and its key is not cached. */
  lemma DuplicateEpoch(p: Primitives, w: World, who: Role, m: Envelope)
    requires Inv(p, w) && m in w.net && m.sender == Other(who) && Id(m.header) in w.delivered
    ensures var s, e := PartyOf(w, who), EpochOf(w, who);
            && EnvelopeInv(p, w.pairs, w.counts, m) && Id(m.header) !in s.skipped
            && m.epoch + 1 <= e && (m.epoch + 1 == e <==> s.peer == Some(m.header.dh))
            && m.header.dh == p.publicOf(w.pairs.secrets[m.epoch])
  {
    hide CacheInv, DeliveredKnown, NetInv, RootAt, EpochChain, MessageKey;
    var s, e := PartyOf(w, who), EpochOf(w, who);
    var i: nat :| i < |w.net| && w.net[i] == m;
    NetSays(p, w, i);
    FromPeerEpoch(p, w, who, m);
    CacheSays(p, w.pairs, w.delivered, e, s.skipped, Reached(w.counts, e, s.recv), m.epoch, m.header.number);
  }

  lemma NetSays(p: Primitives, w: World, i: nat)
    requires Inv(p, w) && i < |w.net|
    ensures EnvelopeInv(p, w.pairs, w.counts, w.net[i])
  {
    hide PartyInv, DistinctPublics, DeliveredKnown, EnvelopeInv;
  }

  // ------------------------------------------------------------------------------------------
  // A message delivered at once
  // ------------------------------------------------------------------------------------------

  lemma UnknownIsNotCached(p: Primitives, k: Pairs, counts: seq<nat>, delivered: set<KeyId>, e: nat, s: Party,
                           x: Secret, n: nat)
    requires e < |k.secrets| == |counts| && PartyInv(p, k, counts, delivered, e, s)
    requires !KnownPublic(p, k, p.publicOf(x))
    ensures (p.publicOf(x), n) !in s.skipped
    ensures s.peer != Some(p.publicOf(x))
  {
    hide RootAt, EpochKey, StreamKey, EpochChain;
  }

  lemma SameSecretsFresh(p: Primitives, w: World, w': World, y: Secret)
    requires FreshSecret(p, w, y) && w'.pairs == w.pairs
    ensures FreshSecret(p, w', y)
  {
  }

  lemma SameReceiver(p: Primitives, w: World, w': World, who: Role, h: Header, y: Secret)
    requires PartyOf(w, who) == PartyOf(w', who)
    ensures Receive(p, w, who, h, y) == Receive(p, w', who, h, y)
  {
  }

  /** A message just sent has not been decrypted. */
  lemma SentIsNew(p: Primitives, w: World, who: Role, x: Secret)
    requires Inv(p, w) && PartyOf(w, who).sent < MAX_MESSAGES_PER_CHAIN && PartyOf(w, who).peer.Some?
    ensures var w', o := SendStep(p, w, who, x), Encrypt(p, PartyOf(w, who), x);
            && o.result.Ok? && o.result.value.1.sequence == o.result.value.0.number
            && w'.net == w.net + [Envelope(who, o.result.value.0, o.result.value.1.key, EpochOf(w, who))]
            && w'.pairs == w.pairs && w'.delivered == w.delivered
            && PartyOf(w', Other(who)) == PartyOf(w, Other(who))
            && Id(o.result.value.0) !in w.delivered
  {
    hide CacheInv, DistinctPublics, DeliveredKnown, NetInv, RootAt, EpochKey, StreamKey, ChainAt, Encrypt;
    var s, t, e, q := PartyOf(w, who), PartyOf(w, Other(who)), EpochOf(w, who), EpochOf(w, Other(who));
    SenderAfterSend(p, w.pairs, w.counts, w.delivered, e, s, x);
    CacheSays(p, w.pairs, w.delivered, q, t.skipped, Reached(w.counts, q, t.recv), e, w.counts[e]);
    assert Id(Encrypt(p, s, x).result.value.0) == MessageId(p, w.pairs, e, w.counts[e]);
  }
}
