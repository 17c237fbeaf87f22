/**
 * What becomes of two parties of the Double Ratchet when a header of an earlier key pair is delivered a second
 * time: the receiver accepts it with a wrong key and then derives wrong keys from its peer's messages.
 */
module DoubleRatchetReplay {
  import opened Prelude
  import opened SymmetricRatchet
  import opened DoubleRatchetSteps
  import opened DoubleRatchetProtocol

  /** A chain of another origin has an epoch's key at the same number exactly if the two coincide. */
  lemma EpochKeyIff(p: Primitives, k: Pairs, e: nat, r: Key, d: Key, n: nat)
    requires 1 <= e < |k.secrets|
    ensures StreamKey(p.kdf, p.kdfChain(r, d), n) == MessageKey(p, k, e, n)
       <==> Coincide(p, r, d, RootAt(p, k, e - 1), Shared(p, k, e), n)
  {
    hide StreamKey, RootAt, Coincide;
    SameKeyIff(p, r, d, RootAt(p, k, e - 1), Shared(p, k, e), n);
  }

  /** The step a party makes from root key `r` for a header of epoch `e` coincides with that epoch's at message `n`. */
  ghost predicate CoincideWith(p: Primitives, k: Pairs, e: nat, r: Key, d: Key, n: nat) {
    1 <= e < |k.secrets| && Coincide(p, r, d, RootAt(p, k, e - 1), Shared(p, k, e), n)
  }

  // ------------------------------------------------------------------------------------------
  // The replayed header and the messages after it
  // ------------------------------------------------------------------------------------------

  /** A decrypted header of an earlier key pair than the receiver's current one. */
  ghost predicate OldDuplicate(p: Primitives, w: World, who: Role, m: Envelope) {
    && Inv(p, w) && m in w.net && m.sender == Other(who) && Id(m.header) in w.delivered
    && PartyOf(w, who).peer != Some(m.header.dh)
  }

  /** What the receiver makes of it: its state steps on from the root key it has. */
  lemma ReplaySteps(p: Primitives, w: World, who: Role, m: Envelope, x: Secret)
    requires OldDuplicate(p, w, who, m)
    ensures var s, e := PartyOf(w, who), EpochOf(w, who);
            var o, dh := Receive(p, w, who, m.header, x), p.diffieHellman(s.secret, m.header.dh);
            && 1 <= m.epoch && m.epoch + 1 < e < |w.pairs.secrets|
            && m.header.dh == p.publicOf(w.pairs.secrets[m.epoch])
            && m.key == MessageKey(p, w.pairs, m.epoch, m.header.number)
            && s.root == RootAt(p, w.pairs, e)
            && (o.result.Ok? <==> SkipsOld(s, m.header) <= MAX_SKIP && m.header.number <= MAX_SKIP)
            && (o.result.Ok? ==> o.result == Ok(MessageKeys(StreamKey(p.kdf, p.kdfChain(s.root, dh), m.header.number),
                                                            m.header.number)))
            && (SkipsOld(s, m.header) <= MAX_SKIP ==>
                  && o.state.peer == Some(m.header.dh) && o.state.secret == x
                  && o.state.root == p.kdfRoot(p.kdfRoot(s.root, dh), p.diffieHellman(x, m.header.dh)))
  {
    hide PartyInv, DeliveredKnown, NetInv, DistinctPublics, RootAt, Decrypt, StreamKey;
    DuplicateEpoch(p, w, who, m);
    ChainsSay(p, w, who);
    NewPairKey(p, PartyOf(w, who), m.header, x);
  }

  /**
   * A replayed header of an earlier key pair is accepted exactly within the limits on skipping, and then has its
   * sender's key exactly if the receiver's step, from a root key some root steps further on, coincides with that of
   * its epoch.
   */
  lemma ReplayIsAcceptedWrongly(p: Primitives, w: World, who: Role, m: Envelope, x: Secret)
    requires OldDuplicate(p, w, who, m)
    ensures var s, r, n := PartyOf(w, who), Receive(p, w, who, m.header, x).result, m.header.number;
            && m.epoch + 1 < EpochOf(w, who) < |w.pairs.secrets| && s.root == RootAt(p, w.pairs, EpochOf(w, who))
            && (r.Ok? <==> SkipsOld(s, m.header) <= MAX_SKIP && n <= MAX_SKIP)
            && (r.Ok? ==> (r == Ok(MessageKeys(m.key, n)) <==>
                           CoincideWith(p, w.pairs, m.epoch, s.root, p.diffieHellman(s.secret, m.header.dh), n)))
  {
    hide OldDuplicate, Receive, RootAt, MessageKey, StreamKey, SkipsOld, Coincide;
    ReplaySteps(p, w, who, m, x);
    var s := PartyOf(w, who);
    EpochKeyIff(p, w.pairs, m.epoch, s.root, p.diffieHellman(s.secret, m.header.dh), m.header.number);
  }

  /**
   * After the receiver has stepped for a replayed header, a message of its peer's newest epochs gives its sender's key
   * exactly within the limits on skipping and if the receiver's step, now from two root steps further on, coincides
   * with its epoch's; unless that key was cached before.
   */
  lemma ReplayLosesThePeer(p: Primitives, w: World, who: Role, m: Envelope, x: Secret, later: Envelope, y: Secret)
    requires OldDuplicate(p, w, who, m) && SkipsOld(PartyOf(w, who), m.header) <= MAX_SKIP
    requires later in w.net && later.sender == Other(who) && later.epoch + 1 >= EpochOf(w, who)
    requires Id(later.header) !in Receive(p, w, who, m.header, x).state.skipped
    ensures var s, t, h := PartyOf(w, who), Receive(p, w, who, m.header, x).state, later.header;
            var dh := p.diffieHellman(s.secret, m.header.dh);
            && t.root == p.kdfRoot(p.kdfRoot(s.root, dh), p.diffieHellman(x, m.header.dh)) && t.secret == x
            && (Decrypt(p, t, h, y).result == Ok(MessageKeys(later.key, h.number)) <==>
                  && SkipsOld(t, h) <= MAX_SKIP && h.number <= MAX_SKIP
                  && CoincideWith(p, w.pairs, later.epoch, t.root, p.diffieHellman(x, h.dh), h.number))
  {
    hide OldDuplicate, Receive, RootAt, MessageKey, StreamKey, Decrypt, SkipsOld, Coincide;
    var t := Receive(p, w, who, m.header, x).state;
    ReplaySteps(p, w, who, m, x);
    LaterIsOther(p, w, who, m, later);
    NewPairKey(p, t, later.header, y);
    EpochKeyIff(p, w.pairs, later.epoch, t.root, p.diffieHellman(t.secret, later.header.dh), later.header.number);
  }

  /** A later message of the peer comes with another key pair than the replayed header. */
  lemma LaterIsOther(p: Primitives, w: World, who: Role, m: Envelope, later: Envelope)
    requires OldDuplicate(p, w, who, m)
    requires later in w.net && later.sender == Other(who) && later.epoch + 1 >= EpochOf(w, who)
    ensures later.header.dh != m.header.dh && 1 <= later.epoch < |w.pairs.secrets|
    ensures later.epoch <= EpochOf(w, who) + 1 && EpochOf(w, who) < |w.pairs.secrets|
    ensures later.key == MessageKey(p, w.pairs, later.epoch, later.header.number)
  {
    hide PartyInv, DeliveredKnown, NetInv, MessageKey;
    DuplicateEpoch(p, w, who, m);
    LaterHeader(p, w, later);
  }

  lemma LaterHeader(p: Primitives, w: World, m: Envelope)
    requires Inv(p, w) && m in w.net
    ensures 1 <= m.epoch < |w.pairs.secrets| && m.header.dh == p.publicOf(w.pairs.secrets[m.epoch])
    ensures m.epoch <= EpochOf(w, Other(m.sender)) + 1
    ensures m.key == MessageKey(p, w.pairs, m.epoch, m.header.number)
  {
    hide PartyInv, DistinctPublics, DeliveredKnown, NetInv, MessageKey;
    var i: nat :| i < |w.net| && w.net[i] == m;
    NetSays(p, w, i);
    FromPeerEpoch(p, w, Other(m.sender), m);
  }

  // ------------------------------------------------------------------------------------------
  // A message whose cached key was thrown out
  // ------------------------------------------------------------------------------------------

  /** A message of the peer whose key a cache without bound would hold is of the current key pair or an older one. */
  lemma CachedEpoch(p: Primitives, w: World, who: Role, m: Envelope)
    requires Inv(p, w) && m in w.net && m.sender == Other(who) && Id(m.header) in PartyOf(w, who).skipped
    ensures var s, e := PartyOf(w, who), EpochOf(w, who);
            && 1 <= m.epoch && m.epoch + 1 <= e < |w.pairs.secrets| && s.root == RootAt(p, w.pairs, e)
            && m.header.dh == p.publicOf(w.pairs.secrets[m.epoch])
            && m.key == MessageKey(p, w.pairs, m.epoch, m.header.number)
            && (s.peer == Some(m.header.dh) <==> m.epoch + 1 == e)
            && (m.epoch + 1 == e ==> s.recv.Some? && m.header.number < s.recv.value.number)
  {
    hide CacheInv, DeliveredKnown, NetInv, RootAt, EpochChain, MessageKey;
    var s, e := PartyOf(w, who), EpochOf(w, who);
    var i: nat :| i < |w.net| && w.net[i] == m;
    NetSays(p, w, i);
    FromPeerEpoch(p, w, who, m);
    CacheSays(p, w.pairs, w.delivered, e, s.skipped, Reached(w.counts, e, s.recv), m.epoch, m.header.number);
  }

  /**
   * A message that arrives for the first time after its key was thrown out of the cache is refused as a replay if it
   * is of the current key pair. If it is of an older one it is accepted exactly within the limits on skipping, and then
   * has its sender's key exactly if the receiver's step coincides with its epoch's, as a replay does.
   */
  lemma EvictedKey(p: Primitives, w: World, who: Role, m: Envelope, cache: map<KeyId, Key>, x: Secret)
    requires Inv(p, w) && m in w.net && m.sender == Other(who)
    requires Id(m.header) in PartyOf(w, who).skipped && Id(m.header) !in cache
    ensures var s, h, n := PartyOf(w, who).(skipped := cache), m.header, m.header.number;
            var o := Decrypt(p, s, h, x);
            && (s.peer == Some(h.dh) ==> o == Decrypted(s, Err(ReplayDetected(n))))
            && (s.peer != Some(h.dh) ==>
                  && (o.result.Ok? <==> SkipsOld(s, h) <= MAX_SKIP && n <= MAX_SKIP)
                  && (o.result.Ok? ==> (o.result == Ok(MessageKeys(m.key, n)) <==>
                                        CoincideWith(p, w.pairs, m.epoch, s.root, p.diffieHellman(s.secret, h.dh), n))))
  {
    hide Inv, RootAt, MessageKey, StreamKey, Coincide, Stash, LeaveChain, NewReceiveChain;
    CachedEpoch(p, w, who, m);
    var s, h := PartyOf(w, who).(skipped := cache), m.header;
    if s.peer != Some(h.dh) {
      hide Decrypt;
      NewPairKey(p, s, h, x);
      EpochKeyIff(p, w.pairs, m.epoch, s.root, p.diffieHellman(s.secret, h.dh), h.number);
    }
  }

  // ------------------------------------------------------------------------------------------
  // A run that reaches it
  // ------------------------------------------------------------------------------------------

  lemma {:induction false} RunAdd(p: Primitives, w: World, a: seq<Action>, b: seq<Action>)
    requires ValidRun(p, w, a) && ValidRun(p, After(p, w, a), b)
    ensures ValidRun(p, w, a + b) && After(p, w, a + b) == After(p, After(p, w, a), b)
    decreases |a|
  {
    hide Step, Enabled;
    if a == [] {
      assert a + b == b;
    } else {
      assert (a + b)[1..] == a[1..] + b;
      RunAdd(p, Step(p, w, a[0]), a[1..], b);
    }
  }

  /** `who` is one epoch ahead, has sent nothing in it, and its peer has few keys cached. */
  ghost predicate ReadyForTurn(p: Primitives, w: World, who: Role) {
    && Inv(p, w) && EpochOf(w, who) == EpochOf(w, Other(who)) + 1
    && w.counts[EpochOf(w, who)] == 0 && PreviousLength(w.counts, EpochOf(w, who)) <= 1
    && |w.alice.skipped| <= 10 && |w.bob.skipped| <= 10
  }

  /** One message from `who`, delivered at once. */
  function Turn(w: World, who: Role, x: Secret): seq<Action> {
    [Send(who, []), Deliver(Other(who), |w.net|, x)]
  }

  /** The message just sent, and what did not change. */
  ghost predicate OneSent(p: Primitives, w: World, who: Role, v: World) {
    var e := EpochOf(w, who);
    && e < |w.counts|
    && |v.net| == |w.net| + 1 && v.net[..|w.net|] == w.net
    && v.net[|w.net|].sender == who && v.net[|w.net|].epoch == e && Id(v.net[|w.net|].header) !in w.delivered
    && v.net[|w.net|].header.number == w.counts[e]
    && v.pairs == w.pairs && v.delivered == w.delivered && v.counts == w.counts[e := w.counts[e] + 1]
    && v.aliceEpoch == w.aliceEpoch && v.bobEpoch == w.bobEpoch
    && PartyOf(v, Other(who)) == PartyOf(w, Other(who)) && PartyOf(v, who).skipped == PartyOf(w, who).skipped
  }

  lemma SendOne(p: Primitives, w: World, who: Role)
    requires Inv(p, w) && PartyOf(w, who).peer.Some? && PartyOf(w, who).sent < MAX_MESSAGES_PER_CHAIN
    ensures Inv(p, SendStep(p, w, who, [])) && OneSent(p, w, who, SendStep(p, w, who, []))
  {
    hide Inv, Encrypt;
    SendKeepsInv(p, w, who, []);
    SentIsNew(p, w, who, []);
    EpochInRange(p, w, who);
    EncryptKeepsCache(p, PartyOf(w, who), []);
    NextNumber(p, w, who);
  }

  lemma NextNumber(p: Primitives, w: World, who: Role)
    requires Inv(p, w) && PartyOf(w, who).peer.Some? && PartyOf(w, who).sent < MAX_MESSAGES_PER_CHAIN
    ensures var r := Encrypt(p, PartyOf(w, who), []).result;
            EpochOf(w, who) < |w.counts| && r.Ok? && r.value.0.number == w.counts[EpochOf(w, who)]
  {
    hide CacheInv, DeliveredKnown, NetInv, DistinctPublics, RootAt, EpochKey, ChainAt;
    var e := EpochOf(w, who);
    assert ChainsInv(p, w.pairs, w.counts, e, PartyOf(w, who));
    ChainAtNumber(p.kdf, EpochKey(p, w.pairs, e), w.counts[e]);
  }

  lemma EncryptKeepsCache(p: Primitives, s: Party, x: Secret)
    ensures Encrypt(p, s, x).state.skipped == s.skipped
  {
  }

  /** Delivering the first message of the newest epoch: its receiver becomes the leader. */
  ghost predicate OneDelivered(w: World, who: Role, x: Secret, v: World)
    requires w.net != []
  {
    var h := w.net[|w.net| - 1].header;
    && v.net == w.net && v.delivered == w.delivered + {Id(h)}
    && v.pairs == Extend(w.pairs, x) && v.counts == w.counts + [0]
    && EpochOf(v, who) == |w.pairs.secrets| && EpochOf(v, Other(who)) == EpochOf(w, Other(who))
    && PartyOf(v, Other(who)) == PartyOf(w, Other(who))
    && |PartyOf(v, who).skipped| <= |PartyOf(w, who).skipped| + 1
  }

  /** The newest message is the first one of its epoch and its receiver is about to see a new key pair. */
  ghost predicate ReadyToDeliver(p: Primitives, w: World, who: Role) {
    && Inv(p, w) && w.net != [] && EpochOf(w, Other(who)) == EpochOf(w, who) + 1
    && w.net[|w.net| - 1].sender == Other(who) && w.net[|w.net| - 1].epoch == EpochOf(w, Other(who))
    && EpochOf(w, Other(who)) < |w.counts|
    && w.counts[EpochOf(w, Other(who))] == 1 && PreviousLength(w.counts, EpochOf(w, Other(who))) <= 1
    && |PartyOf(w, who).skipped| <= 10 && Id(w.net[|w.net| - 1].header) !in w.delivered
  }

  lemma DeliverOne(p: Primitives, w: World, who: Role, x: Secret)
    requires Commutes(p) && ReadyToDeliver(p, w, who) && FreshSecret(p, w, x)
    ensures var a := Deliver(who, |w.net| - 1, x);
            Enabled(p, w, a) && Inv(p, Step(p, w, a)) && OneDelivered(w, who, x, Step(p, w, a))
  {
    hide CacheInv, ChainsInv, DeliveredKnown, NetInv, DistinctPublics, Receive, FreshSecret, HeaderInStep;
    var n, s := |w.net| - 1, PartyOf(w, who);
    var h := w.net[n].header;
    NewestHeader(p, w, who);
    DeliveryAgrees(p, w, who, n, x);
    StepOfNewest(p, w, who, x);
  }

  lemma NewestHeader(p: Primitives, w: World, who: Role)
    requires ReadyToDeliver(p, w, who)
    ensures var h, s := w.net[|w.net| - 1].header, PartyOf(w, who);
            && h.number == 0 && h.previousChainLength <= 1 && NeedsStep(s, h) && Id(h) !in s.skipped
            && SkipsOld(s, h) <= 1 && SkipsNew(s, h) == 0
            && EpochOf(w, who) + 2 == |w.pairs.secrets| == |w.counts| && w.counts[0] == 0
            && h.dh == p.publicOf(w.pairs.secrets[EpochOf(w, who) + 1])
            && h.previousChainLength == PreviousLength(w.counts, EpochOf(w, who) + 1)
  {
    hide CacheInv, DeliveredKnown, NetInv, RootAt, EpochChain, MessageKey;
    var n, s, e := |w.net| - 1, PartyOf(w, who), EpochOf(w, who);
    var h := w.net[n].header;
    NetSays(p, w, n);
    CacheSays(p, w.pairs, w.delivered, e, s.skipped, Reached(w.counts, e, s.recv), e + 1, h.number);
    NewPairIsNew(p, w.pairs, w.counts, e, s);
  }

  lemma StepOfNewest(p: Primitives, w: World, who: Role, x: Secret)
    requires Commutes(p) && ReadyToDeliver(p, w, who) && FreshSecret(p, w, x)
    ensures var h, s := w.net[|w.net| - 1].header, PartyOf(w, who);
            var o := Receive(p, w, who, h, x);
            o.result.Ok? && o.state.public != s.public && |o.state.skipped| <= |s.skipped| + 1
  {
    hide CacheInv, NetInv, RootAt, EpochChain, Decrypt, PartyInv, DistinctPublics, DeliveredKnown, FreshSecret;
    var n, s, e := |w.net| - 1, PartyOf(w, who), EpochOf(w, who);
    NewestHeader(p, w, who);
    DistinctAfterNewPair(p, w, x);
    assert w.counts[e + 1] == 1;
    ReceiveNew(p, w.pairs, w.counts, w.delivered, e, s, w.net[n].header, x);
    ChainsSay(p, w, who);
    FreshIsOther(p, w, x, e);
  }

  lemma FreshIsOther(p: Primitives, w: World, x: Secret, e: nat)
    requires FreshSecret(p, w, x) && e < |w.pairs.secrets|
    ensures p.publicOf(w.pairs.secrets[e]) != p.publicOf(x)
  {
  }

  /** After a turn of `who` its peer is the leader. */
  lemma TakeTurn(p: Primitives, w: World, who: Role, x: Secret)
    requires Commutes(p) && ReadyForTurn(p, w, who) && FreshSecret(p, w, x)
    ensures ValidRun(p, w, Turn(w, who, x))
    ensures var v, e := After(p, w, Turn(w, who, x)), EpochOf(w, who);
            && Inv(p, v) && EpochOf(v, Other(who)) == e + 1 && EpochOf(v, who) == e
            && v.pairs == Extend(w.pairs, x) && v.counts == w.counts[e := 1] + [0]
            && |v.net| == |w.net| + 1 && v.net[..|w.net|] == w.net
            && w.delivered + {Id(v.net[|w.net|].header)} <= v.delivered
            && v.net[|w.net|].sender == who && v.net[|w.net|].epoch == e
            && |v.alice.skipped| <= |w.alice.skipped| + 1 && |v.bob.skipped| <= |w.bob.skipped| + 1
  {
    hide PartyInv, DeliveredKnown, NetInv, DistinctPublics, Step, SendStep, Enabled, FreshSecret, ValidRun, After;
    var a, b := Send(who, []), Deliver(Other(who), |w.net|, x);
    LeaderCanSend(p, w, who);
    SendOne(p, w, who);
    SendIsStep(p, w, who);
    var u := Step(p, w, a);
    SameSecretsFresh(p, w, u, x);
    DeliverOne(p, u, Other(who), x);
    RunTwo(p, w, a, b);
  }

  lemma SendIsStep(p: Primitives, w: World, who: Role)
    requires PartyOf(w, who).sent < MAX_MESSAGES_PER_CHAIN
    ensures Enabled(p, w, Send(who, [])) && Step(p, w, Send(who, [])) == SendStep(p, w, who, [])
  {
    hide SendStep;
  }

  lemma RunTwo(p: Primitives, w: World, a: Action, b: Action)
    requires Enabled(p, w, a) && Enabled(p, Step(p, w, a), b)
    ensures ValidRun(p, w, [a, b]) && After(p, w, [a, b]) == Step(p, Step(p, w, a), b)
  {
    hide Enabled, Step;
    assert [a, b][1..] == [b];
    assert [b][1..] == [];
    assert ValidRun(p, Step(p, w, a), [b]);
    assert After(p, Step(p, w, a), [b]) == Step(p, Step(p, w, a), b);
  }

  lemma LeaderCanSend(p: Primitives, w: World, who: Role)
    requires ReadyForTurn(p, w, who)
    ensures PartyOf(w, who).peer.Some? && PartyOf(w, who).sent == 0
  {
    hide CacheInv, DeliveredKnown, NetInv, DistinctPublics, RootAt, EpochChain;
  }

  /** Alice, Bob and Alice again send one message each, every one delivered at once. */
  function ThreeTurns(x: Secret, y: Secret, z: Secret): seq<Action> {
    [Send(Alice, []), Deliver(Bob, 0, x), Send(Bob, []), Deliver(Alice, 1, y), Send(Alice, []), Deliver(Bob, 2, z)]
  }

  /** The public keys of the five key pairs in use. */
  ghost predicate FivePairs(p: Primitives, secrets: seq<Secret>) {
    |secrets| == 5 && forall i, j :: 0 <= i < j < 5 ==> p.publicOf(secrets[i]) != p.publicOf(secrets[j])
  }

  lemma PrefixFresh(p: Primitives, w: World, secrets: seq<Secret>, n: nat)
    requires FivePairs(p, secrets) && n < 5 && w.pairs.secrets == secrets[..n]
    ensures FreshSecret(p, w, secrets[n])
  {
  }

  /** After `n` turns of one message each: key pairs 0, ..., n + 1 are in use, and Alice's first message is read. */
  ghost predicate TurnsTaken(p: Primitives, w: World, root: Key, s: seq<Secret>, n: nat) {
    && n < 4 && FivePairs(p, s) && Inv(p, w) && w.pairs == Pairs(root, s[..n + 2]) && |w.counts| == n + 2
    && (forall i :: 0 <= i < n + 2 ==> w.counts[i] == if 1 <= i <= n then 1 else 0)
    && w.aliceEpoch == (if n % 2 == 0 then n + 1 else n) && w.bobEpoch == (if n % 2 == 0 then n else n + 1)
    && |w.net| == n && |w.alice.skipped| <= n && |w.bob.skipped| <= n
    && (n > 0 ==> w.net[0].sender == Alice && w.net[0].epoch == 1 && Id(w.net[0].header) in w.delivered)
  }

  lemma ReadyAfter(p: Primitives, w: World, root: Key, s: seq<Secret>, n: nat, who: Role)
    requires n < 3 && who == (if n % 2 == 0 then Alice else Bob) && TurnsTaken(p, w, root, s, n)
    ensures ReadyForTurn(p, w, who) && FreshSecret(p, w, s[n + 2])
  {
    hide Inv, FreshSecret;
    PrefixFresh(p, w, s, n + 2);
  }

  lemma OneMoreTurn(p: Primitives, w: World, root: Key, s: seq<Secret>, n: nat, who: Role)
    requires Commutes(p) && n < 3 && who == (if n % 2 == 0 then Alice else Bob) && TurnsTaken(p, w, root, s, n)
    ensures var turn := Turn(w, who, s[n + 2]);
            ValidRun(p, w, turn) && TurnsTaken(p, After(p, w, turn), root, s, n + 1)
  {
    hide Inv, FreshSecret, ReadyForTurn, ValidRun, After;
    ReadyAfter(p, w, root, s, n, who);
    TakeTurn(p, w, who, s[n + 2]);
    assert s[..n + 2] + [s[n + 2]] == s[..n + 3];
    OneMoreTaken(w, After(p, w, Turn(w, who, s[n + 2])), n);
  }

  /** One more turn at the end of a run. */
  lemma TurnAfter(p: Primitives, w0: World, run: seq<Action>, root: Key, s: seq<Secret>, n: nat, who: Role)
    requires Commutes(p) && ValidRun(p, w0, run) && n < 3 && who == (if n % 2 == 0 then Alice else Bob)
    requires TurnsTaken(p, After(p, w0, run), root, s, n)
    ensures var more := run + [Send(who, []), Deliver(Other(who), n, s[n + 2])];
            ValidRun(p, w0, more) && TurnsTaken(p, After(p, w0, more), root, s, n + 1)
  {
    hide Inv, ValidRun, After;
    var w := After(p, w0, run);
    OneMoreTurn(p, w, root, s, n, who);
    RunAdd(p, w0, run, Turn(w, who, s[n + 2]));
  }

  lemma OneMoreTaken(w: World, v: World, n: nat)
    requires |w.net| == n && |v.net| == n + 1 && v.net[..n] == w.net
    ensures n > 0 ==> v.net[0] == w.net[0]
  {
  }

  /** Where the three turns lead. */
  lemma AfterThreeTurns(p: Primitives, root: Key, s: seq<Secret>)
    requires Commutes(p) && FivePairs(p, s)
    ensures var w0, run := InitialWorld(p, root, s[0], s[1]), ThreeTurns(s[2], s[3], s[4]);
            ValidRun(p, w0, run) && TurnsTaken(p, After(p, w0, run), root, s, 3)
  {
    hide Inv, ValidRun, After;
    var w0 := InitialWorld(p, root, s[0], s[1]);
    InitialInv(p, root, s[0], s[1]);
    NoRun(p, w0);
    assert TurnsTaken(p, w0, root, s, 0);
    hide TurnsTaken;
    var t1 := [Send(Alice, []), Deliver(Bob, 0, s[2])];
    var t2 := t1 + [Send(Bob, []), Deliver(Alice, 1, s[3])];
    assert [] + t1 == t1;
    TurnAfter(p, w0, [], root, s, 0, Alice);
    TurnAfter(p, w0, t1, root, s, 1, Bob);
    TurnAfter(p, w0, t2, root, s, 2, Alice);
    assert t2 + [Send(Alice, []), Deliver(Bob, 2, s[4])] == ThreeTurns(s[2], s[3], s[4]);
  }

  lemma ThreeTaken(p: Primitives, w: World, root: Key, s: seq<Secret>)
    requires TurnsTaken(p, w, root, s, 3)
    ensures Inv(p, w) && w.bobEpoch == 4 && w.aliceEpoch == 3 && w.counts == [0, 1, 1, 1, 0]
    ensures |w.net| == 3 && w.net[0].sender == Alice && w.net[0].epoch == 1 && Id(w.net[0].header) in w.delivered
    ensures w.pairs == Pairs(root, s) && w.bob.root == RootAt(p, w.pairs, 4) && w.bob.secret == s[4]
  {
    hide Inv, RootAt;
    assert s[..5] == s;
    ChainsSay(p, w, Bob);
  }

  lemma NoRun(p: Primitives, w: World)
    ensures ValidRun(p, w, []) && After(p, w, []) == w
  {
  }

  /**
   * A run within all bounds after which Bob, given Alice's first message again, accepts it, with her key exactly if his
   * fifth root step coincides with the first; he then has the key of the next message she sends exactly if his seventh
   * coincides with the third.
   */
  lemma ReplayReached(p: Primitives, root: Key, s: seq<Secret>, x: Secret, y: Secret)
    requires Commutes(p) && FivePairs(p, s)
    ensures var w0, run := InitialWorld(p, root, s[0], s[1]), ThreeTurns(s[2], s[3], s[4]);
            && ValidRun(p, w0, run)
            && var w := After(p, w0, run);
               && w.pairs == Pairs(root, s) && w.bob.root == RootAt(p, w.pairs, 4) && w.bob.secret == s[4]
               && |w.net| == 3 && Id(w.net[0].header) in w.delivered && Encrypt(p, w.alice, []).result.Ok?
               && ReplayGoesWrong(p, w, x, y)
  {
    hide Inv, ValidRun, After, Encrypt, TurnsTaken, RootAt, ReplayGoesWrong;
    AfterThreeTurns(p, root, s);
    var w := After(p, InitialWorld(p, root, s[0], s[1]), ThreeTurns(s[2], s[3], s[4]));
    ThreeTaken(p, w, root, s);
    ReplayAtBob(p, w, x, y);
  }

  /** What Bob makes of Alice's first message when it comes again, and of her next one. */
  ghost predicate ReplayGoesWrong(p: Primitives, w: World, x: Secret, y: Secret)
    requires |w.net| == 3 && Encrypt(p, w.alice, []).result.Ok?
  {
    var (h, keys) := Encrypt(p, w.alice, []).result.value;
    var first, o := w.net[0], Receive(p, w, Bob, w.net[0].header, x);
    var dh := p.diffieHellman(w.bob.secret, first.header.dh);
    && o.result.Ok? && first.header.number == 0 && h.number == 1
    && (o.result == Ok(MessageKeys(first.key, 0)) <==> CoincideWith(p, w.pairs, 1, w.bob.root, dh, 0))
    && o.state.root == p.kdfRoot(p.kdfRoot(w.bob.root, dh), p.diffieHellman(x, first.header.dh))
    && (Decrypt(p, o.state, h, y).result == Ok(keys) <==>
          SkipsOld(o.state, h) <= MAX_SKIP && CoincideWith(p, w.pairs, 3, o.state.root, p.diffieHellman(x, h.dh), 1))
  }

  lemma ReplayAtBob(p: Primitives, w: World, x: Secret, y: Secret)
    requires Inv(p, w) && w.bobEpoch == 4 && w.aliceEpoch == 3 && w.counts == [0, 1, 1, 1, 0]
    requires |w.net| == 3 && w.net[0].sender == Alice && w.net[0].epoch == 1 && Id(w.net[0].header) in w.delivered
    ensures Encrypt(p, w.alice, []).result.Ok? && ReplayGoesWrong(p, w, x, y)
  {
    hide Inv, Encrypt, Decrypt, SendStep, CoincideWith, RootAt, SkipsOld;
    AliceCanSend(p, w);
    FirstHeader(p, w);
    ReplayIsAcceptedWrongly(p, w, Bob, w.net[0], x);
    SentIsNew(p, w, Alice, []);
    SendOne(p, w, Alice);
    var v := SendStep(p, w, Alice, []);
    assert v.net[0] == w.net[0];
    SameReceiver(p, w, v, Bob, w.net[0].header, x);
    NotCached(p, w, v, x);
    ReplayLosesThePeer(p, v, Bob, v.net[0], x, v.net[3], y);
  }

  lemma AliceCanSend(p: Primitives, w: World)
    requires Inv(p, w) && w.aliceEpoch == 3 && w.counts == [0, 1, 1, 1, 0]
    ensures w.alice.peer.Some? && w.alice.sent == 1
  {
    hide CacheInv, DeliveredKnown, NetInv, DistinctPublics, RootAt, EpochChain;
  }

  lemma FirstHeader(p: Primitives, w: World)
    requires Inv(p, w) && w.bobEpoch == 4 && |w.counts| == 5 && w.counts[1] == 1
    requires |w.net| == 3 && w.net[0].sender == Alice && w.net[0].epoch == 1 && Id(w.net[0].header) in w.delivered
    ensures var h := w.net[0].header;
            && h.number == 0 && h.previousChainLength == 0 && SkipsOld(w.bob, h) == 0
            && OldDuplicate(p, w, Bob, w.net[0]) && Id(h) !in w.bob.skipped
  {
    hide PartyInv, DeliveredKnown, NetInv, DistinctPublics, MessageKey;
    NetSays(p, w, 0);
    DuplicateEpoch(p, w, Bob, w.net[0]);
  }

  /** Alice's next message is not among the keys Bob has cached, before or after the replay. */
  lemma NotCached(p: Primitives, w: World, v: World, x: Secret)
    requires Inv(p, w) && w.bobEpoch == 4 && w.aliceEpoch == 3 && w.counts == [0, 1, 1, 1, 0]
    requires |w.net| == 3 && w.net[0].sender == Alice && w.net[0].epoch == 1 && Id(w.net[0].header) in w.delivered
    requires Inv(p, v) && OneSent(p, w, Alice, v)
    ensures Id(v.net[3].header) !in Receive(p, w, Bob, w.net[0].header, x).state.skipped
    ensures OldDuplicate(p, v, Bob, v.net[0]) && v.net[0] == w.net[0]
  {
    hide PartyInv, DeliveredKnown, DistinctPublics, NetInv, MessageKey, Decrypt;
    FirstHeader(p, w);
    assert v.net[0] == v.net[..3][0];
    BobIsBehind(p, w);
    NextIsUncached(p, v);
    CacheAfterReplay(p, w.bob, w.net[0].header, x);
  }

  lemma BobIsBehind(p: Primitives, w: World)
    requires Inv(p, w) && w.bobEpoch == 4 && w.counts == [0, 1, 1, 1, 0]
    ensures w.bob.recv.Some? && w.bob.recv.value.number <= 1
  {
    hide CacheInv, DeliveredKnown, NetInv, DistinctPublics, RootAt, EpochChain;
  }

  lemma NextIsUncached(p: Primitives, v: World)
    requires Inv(p, v) && v.bobEpoch == 4 && |v.net| == 4 && v.net[3].epoch == 3 && v.net[3].sender == Alice
    requires Id(v.net[3].header) !in v.delivered && |v.counts| == 5
    requires v.bob.recv.Some? && v.net[3].header.number >= v.bob.recv.value.number
    ensures Id(v.net[3].header) !in v.bob.skipped
  {
    hide DeliveredKnown, NetInv, RootAt, EpochChain, MessageKey, CacheInv;
    NetSays(p, v, 3);
    CacheSays(p, v.pairs, v.delivered, 4, v.bob.skipped, Reached(v.counts, 4, v.bob.recv), 3, v.net[3].header.number);
  }

  /** A header with number 0 that names no skipped message adds nothing to the cache. */
  lemma CacheAfterReplay(p: Primitives, s: Party, h: Header, x: Secret)
    requires NeedsStep(s, h) && Id(h) !in s.skipped && SkipsOld(s, h) == 0 && h.number == 0
    ensures Decrypt(p, s, h, x).state.skipped == s.skipped
  {
    assert LeaveChain(p, s, h).skipped == s.skipped;
  }

  lemma CountedRoots(k: Pairs)
    requires |k.root| == 32 && |k.secrets| == 5
    ensures forall e: nat :: e < 5 ==> |RootAt(Counting(), k, e)| == 32
    ensures RootAt(Counting(), k, 0)[0] == k.root[0] && RootAt(Counting(), k, 2)[0] == k.root[0] + 1 + 1
    ensures RootAt(Counting(), k, 4)[0] == k.root[0] + 1 + 1 + 1 + 1
  {
    var p := Counting();
    assert RootAt(p, k, 1) == CountUp(k.root, 0);
    assert RootAt(p, k, 2) == CountUp(RootAt(p, k, 1), 0);
    assert RootAt(p, k, 3) == CountUp(RootAt(p, k, 2), 0);
    assert RootAt(p, k, 4) == CountUp(RootAt(p, k, 3), 0);
  }

  lemma CountedBytes(b: bv8)
    ensures b + 1 + 1 + 1 + 1 != b && b + 1 + 1 + 1 + 1 + 1 + 1 != b + 1 + 1
  {
  }

  /** An example with functions of fixed length, in which both keys are wrong. */
  lemma ReplayReachedIn32Bytes(root: Key, s: seq<Secret>, x: Secret, y: Secret)
    requires |root| == 32 && FivePairs(Counting(), s) && forall i :: 0 <= i < 5 ==> |s[i]| == 32
    ensures var p := Counting();
            var w0, run := InitialWorld(p, root, s[0], s[1]), ThreeTurns(s[2], s[3], s[4]);
            && KeepsLength(p) && Commutes(p) && ValidRun(p, w0, run)
            && var w := After(p, w0, run);
               && |w.net| == 3 && Id(w.net[0].header) in w.delivered && Encrypt(p, w.alice, []).result.Ok?
               && var o := Receive(p, w, Bob, w.net[0].header, x);
                  && o.result.Ok? && o.result != Ok(MessageKeys(w.net[0].key, 0))
                  && var (h, keys) := Encrypt(p, w.alice, []).result.value;
                     Decrypt(p, o.state, h, y).result != Ok(keys)
  {
    hide ValidRun, After, Encrypt, Receive, Decrypt, RootAt, Coincide, CountUp;
    var p := Counting();
    CountingKeepsLength();
    ReplayReached(p, root, s, x, y);
    var w := After(p, InitialWorld(p, root, s[0], s[1]), ThreeTurns(s[2], s[3], s[4]));
    WrongRoots(w.pairs, w.bob.root);
    var (h, _) := Encrypt(p, w.alice, []).result.value;
    var first, o := w.net[0], Receive(p, w, Bob, w.net[0].header, x);
    CountingCoincidesIff(w.bob.root, p.diffieHellman(w.bob.secret, first.header.dh),
                         RootAt(p, w.pairs, 0), Shared(p, w.pairs, 1), 0);
    CountingCoincidesIff(o.state.root, p.diffieHellman(x, h.dh), RootAt(p, w.pairs, 2), Shared(p, w.pairs, 3), 1);
  }

  lemma WrongRoots(k: Pairs, r: Key)
    requires |k.root| == 32 && |k.secrets| == 5 && r == RootAt(Counting(), k, 4)
    ensures r != RootAt(Counting(), k, 0) && CountUp(CountUp(r, 0), 0) != RootAt(Counting(), k, 2)
  {
    hide RootAt;
    CountedRoots(k);
    CountedBytes(k.root[0]);
    assert CountUp(CountUp(r, 0), 0)[0] == r[0] + 1 + 1;
  }
}
