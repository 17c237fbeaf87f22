/**
 * The step that `hidra_core/src/ratchet.rs` forces after MAX_MESSAGES_PER_CHAIN messages. Only the sender makes
 * it, from a root key that is not the receiver's, so no message after it gives the sender's key, in either
 * direction, unless one of the key derivation functions collides on the inputs at hand.
 */
module DoubleRatchetForced {
  import opened Prelude
  import opened SymmetricRatchet
  import opened DoubleRatchetSteps
  import opened DoubleRatchetProtocol

  // ------------------------------------------------------------------------------------------
  // Sending without an answer
  // ------------------------------------------------------------------------------------------

  /** The party after it has sent one message for each of the secrets, which it would use if it had to step. */
  function Sent(p: Primitives, s: Party, xs: seq<Secret>): Party
    decreases |xs|
  {
    if xs == [] then s else Encrypt(p, Sent(p, s, xs[..|xs| - 1]), xs[|xs| - 1]).state
  }

  /** The message that follows: its header and key. */
  function Message(p: Primitives, s: Party, xs: seq<Secret>): Result<(Header, MessageKeys), RatchetError>
    requires xs != []
  {
    Encrypt(p, Sent(p, s, xs[..|xs| - 1]), xs[|xs| - 1]).result
  }

  /** The shared secret of a step to the pair of `x`. */
  function StepSecret(p: Primitives, s: Party, x: Secret): Key
    requires s.peer.Some?
  {
    p.diffieHellman(x, s.peer.value)
  }

  /** A forced step, and the messages of the chain that it opens. */
  lemma {:induction false} ForcedChain(p: Primitives, u: Party, xs: seq<Secret>)
    requires u.sent >= MAX_MESSAGES_PER_CHAIN && u.peer.Some? && 1 <= |xs| <= MAX_MESSAGES_PER_CHAIN
    ensures var d := StepSecret(p, u, xs[0]);
            && Sent(p, u, xs) == u.(root := p.kdfRoot(u.root, d), secret := xs[0], public := p.publicOf(xs[0]),
                                    send := Some(ChainAt(p.kdf, p.kdfChain(u.root, d), |xs|)),
                                    prevSendLength := SendLength(u), sent := |xs|)
            && Message(p, u, xs) == Ok((Header(p.publicOf(xs[0]), SendLength(u), |xs| - 1),
                                        MessageKeys(StreamKey(p.kdf, p.kdfChain(u.root, d), |xs| - 1), |xs| - 1)))
    decreases |xs|
  {
    var n := |xs| - 1;
    var base := p.kdfChain(u.root, StepSecret(p, u, xs[0]));
    ChainAtNumber(p.kdf, base, n);
    if n == 0 {
      FirstOfForced(p, u, xs[0]);
      assert xs[..0] == [];
    } else {
      ForcedChain(p, u, xs[..n]);
      NextOfChain(p, Sent(p, u, xs[..n]), xs[n], base);
    }
  }

  lemma FirstOfForced(p: Primitives, u: Party, x: Secret)
    requires u.sent >= MAX_MESSAGES_PER_CHAIN && u.peer.Some?
    ensures var d, o := StepSecret(p, u, x), Encrypt(p, u, x);
            && o.state == u.(root := p.kdfRoot(u.root, d), secret := x, public := p.publicOf(x),
                             send := Some(ChainAt(p.kdf, p.kdfChain(u.root, d), 1)),
                             prevSendLength := SendLength(u), sent := 1)
            && o.result == Ok((Header(p.publicOf(x), SendLength(u), 0),
                               MessageKeys(StreamKey(p.kdf, p.kdfChain(u.root, d), 0), 0)))
  {
    var base := p.kdfChain(u.root, StepSecret(p, u, x));
    assert ChainAt(p.kdf, base, 1) == Next(p.kdf, ChainAt(p.kdf, base, 0));
  }

  /** One more message of a chain that is not at its limit. */
  lemma NextOfChain(p: Primitives, s: Party, x: Secret, base: Key)
    requires s.sent < MAX_MESSAGES_PER_CHAIN && s.send == Some(ChainAt(p.kdf, base, s.sent))
    ensures Encrypt(p, s, x).state == s.(send := Some(ChainAt(p.kdf, base, s.sent + 1)), sent := s.sent + 1)
    ensures Encrypt(p, s, x).result
         == Ok((Header(s.public, s.prevSendLength, s.sent), MessageKeys(StreamKey(p.kdf, base, s.sent), s.sent)))
  {
    ChainAtNumber(p.kdf, base, s.sent);
  }

  // ------------------------------------------------------------------------------------------
  // The receiver of a forced chain
  // ------------------------------------------------------------------------------------------

  /**
   * A message of a forced chain that reaches a receiver first is accepted exactly within the limits on skipping, and
   * gives its sender's key exactly if the keys of the two steps coincide.
   */
  lemma ForcedStepDisagrees(p: Primitives, u: Party, xs: seq<Secret>, t: Party, y: Secret)
    requires u.sent >= MAX_MESSAGES_PER_CHAIN && u.peer.Some? && 1 <= |xs| <= MAX_MESSAGES_PER_CHAIN
    requires t.peer != Some(p.publicOf(xs[0])) && (p.publicOf(xs[0]), |xs| - 1) !in t.skipped
    ensures var m, n := Message(p, u, xs), |xs| - 1;
            && m.Ok?
            && var (h, keys) := m.value;
               var r := Decrypt(p, t, h, y).result;
               && (r.Ok? <==> SkipsOld(t, h) <= MAX_SKIP && n <= MAX_SKIP)
               && (r.Ok? ==> (r == Ok(keys) <==> CoincideFor(p, u, xs[0], t, n)))
  {
    hide Coincide, Decrypt, StreamKey, ChainAt, Message, Sent, SkipsOld;
    ForcedChain(p, u, xs);
    var h := Message(p, u, xs).value.0;
    NewPairKey(p, t, h, y);
    SameKeyIff(p, u.root, StepSecret(p, u, xs[0]), t.root, p.diffieHellman(t.secret, h.dh), |xs| - 1);
  }

  /** The receiver's step to the pair of `x` coincides, at message `n`, with the step that the sender was forced to. */
  ghost predicate CoincideFor(p: Primitives, u: Party, x: Secret, t: Party, n: nat)
    requires u.peer.Some?
  {
    Coincide(p, u.root, StepSecret(p, u, x), t.root, p.diffieHellman(t.secret, p.publicOf(x)), n)
  }

  /** The party receives on the chain from `base`, of the key pair `from`, and caches that chain's keys. */
  ghost predicate Follows(p: Primitives, t: Party, from: Public, base: Key) {
    && t.peer == Some(from) && t.recv.Some? && t.recv.value == ChainAt(p.kdf, base, t.recv.value.number)
    && forall n: nat :: (from, n) in t.skipped ==> t.skipped[(from, n)] == StreamKey(p.kdf, base, n)
  }

  /** The party after a number of headers have been delivered to it. */
  function Received(p: Primitives, t: Party, hs: seq<Header>): Party
    decreases |hs|
  {
    if hs == [] then t else Decrypt(p, Received(p, t, hs[..|hs| - 1]), hs[|hs| - 1], []).state
  }

  lemma FollowsOne(p: Primitives, t: Party, from: Public, base: Key, h: Header, y: Secret)
    requires Follows(p, t, from, base) && h.dh == from
    ensures var o := Decrypt(p, t, h, y);
            && Follows(p, o.state, from, base)
            && (o.result.Ok? ==> o.result == Ok(MessageKeys(StreamKey(p.kdf, base, h.number), h.number)))
  {
    hide Stash, Stashed, ChainAt, LeaveChain, NewReceiveChain;
    var m := t.recv.value.number;
    if Id(h) !in t.skipped && m <= h.number <= m + MAX_SKIP {
      var cache := TakeAhead(p, t, h, base, m);
      ChainAtNumber(p.kdf, base, h.number + 1);
      StashedKeys(p.kdf, base, from, m, h.number, t.skipped, cache);
    }
  }

  lemma StashedKeys(kdf: Kdf, root: Key, from: Public, m: nat, n: nat, cache: map<KeyId, Key>, result: map<KeyId, Key>)
    requires Stashed(kdf, root, from, m, n, cache, result)
    requires forall k: nat :: (from, k) in cache ==> cache[(from, k)] == StreamKey(kdf, root, k)
    ensures forall k: nat :: (from, k) in result ==> result[(from, k)] == StreamKey(kdf, root, k)
  {
    hide StreamKey;
  }

  lemma {:induction false} FollowsAll(p: Primitives, t: Party, from: Public, base: Key, hs: seq<Header>)
    requires Follows(p, t, from, base) && forall i :: 0 <= i < |hs| ==> hs[i].dh == from
    ensures Follows(p, Received(p, t, hs), from, base)
    decreases |hs|
  {
    hide Follows, Decrypt;
    if hs != [] {
      FollowsAll(p, t, from, base, hs[..|hs| - 1]);
      FollowsOne(p, Received(p, t, hs[..|hs| - 1]), from, base, hs[|hs| - 1], []);
    }
  }

  lemma {:induction false} StashOthers(kdf: Kdf, other: Public, c: Chain, cache: map<KeyId, Key>, count: nat, id: KeyId)
    requires id.0 != other && id !in cache
    ensures id !in Stash(kdf, other, c, cache, count).1
  {
    if count > 0 {
      StashOthers(kdf, other, c, cache, count - 1, id);
    }
  }

  /** The receiver has never heard of a key pair. */
  predicate Unknown(t: Party, from: Public) {
    && t.peer != Some(from) && (t.recv.Some? ==> t.peer.Some?)
    && forall id :: id in t.skipped ==> id.0 != from
  }

  /** The receiver after its step to a new key pair, before it takes the key of the header. */
  lemma FollowsNewChain(p: Primitives, t: Party, h: Header, y: Secret)
    requires Unknown(t, h.dh)
    ensures var v := NewReceiveChain(p, LeaveChain(p, t, h), h.dh, y);
            && Follows(p, v, h.dh, p.kdfChain(t.root, p.diffieHellman(t.secret, h.dh)))
            && Id(h) !in v.skipped
  {
    hide Stash;
    StartIsZero(p.kdf, p.kdfChain(t.root, p.diffieHellman(t.secret, h.dh)));
    forall n: nat
      ensures (h.dh, n) !in LeaveChain(p, t, h).skipped
    {
      if t.recv.Some? {
        StashOthers(p.kdf, t.peer.value, t.recv.value, t.skipped, SkipsOld(t, h), (h.dh, n));
      }
    }
  }

  lemma FollowsAfterStep(p: Primitives, t: Party, h: Header, y: Secret)
    requires Unknown(t, h.dh) && SkipsOld(t, h) <= MAX_SKIP
    ensures Follows(p, Decrypt(p, t, h, y).state, h.dh, p.kdfChain(t.root, p.diffieHellman(t.secret, h.dh)))
  {
    hide Follows, LeaveChain, NewReceiveChain, TakeFromChain;
    FollowsNewChain(p, t, h, y);
    var v := NewReceiveChain(p, LeaveChain(p, t, h), h.dh, y);
    assert v.peer == Some(h.dh) by { NewPeer(p, t, h, y); }
    FollowsOne(p, v, h.dh, p.kdfChain(t.root, p.diffieHellman(t.secret, h.dh)), h, y);
    assert Id(h) !in t.skipped;
  }

  lemma NewPeer(p: Primitives, t: Party, h: Header, y: Secret)
    ensures NewReceiveChain(p, LeaveChain(p, t, h), h.dh, y).peer == Some(h.dh)
  {
    hide LeaveChain;
  }

  /**
   * In whatever order, and however often, the messages of a forced chain arrive: once the receiver has stepped to its
   * key pair, every answer is that of the receiver's own chain, so it is the sender's key exactly if the two coincide.
   */
  lemma ForcedChainInAnyOrder(p: Primitives, u: Party, xs: seq<Secret>, t: Party, first: Header, y: Secret,
                              hs: seq<Header>, z: Secret)
    requires u.sent >= MAX_MESSAGES_PER_CHAIN && u.peer.Some? && 1 <= |xs| <= MAX_MESSAGES_PER_CHAIN
    requires Unknown(t, p.publicOf(xs[0])) && first.dh == p.publicOf(xs[0]) && SkipsOld(t, first) <= MAX_SKIP
    requires forall i :: 0 <= i < |hs| ==> hs[i].dh == p.publicOf(xs[0])
    ensures var m, v := Message(p, u, xs), Received(p, Decrypt(p, t, first, y).state, hs);
            && m.Ok?
            && var (h, keys) := m.value;
               var r := Decrypt(p, v, h, z).result;
               r.Ok? ==> (r == Ok(keys) <==> CoincideFor(p, u, xs[0], t, |xs| - 1))
  {
    hide Coincide, Decrypt, StreamKey, ChainAt, Message, Sent, SkipsOld, Follows, Unknown, Received;
    var from, d' := p.publicOf(xs[0]), p.diffieHellman(t.secret, p.publicOf(xs[0]));
    ForcedChain(p, u, xs);
    FollowsAfterStep(p, t, first, y);
    FollowsAll(p, Decrypt(p, t, first, y).state, from, p.kdfChain(t.root, d'), hs);
    FollowsOne(p, Received(p, Decrypt(p, t, first, y).state, hs), from, p.kdfChain(t.root, d'),
               Message(p, u, xs).value.0, z);
    SameKeyIff(p, u.root, StepSecret(p, u, xs[0]), t.root, d', |xs| - 1);
  }

  // ------------------------------------------------------------------------------------------
  // Every later exchange
  // ------------------------------------------------------------------------------------------

  /** The party sends on the chain of a root step from `r` with the shared secret `d`. */
  ghost predicate Leads(p: Primitives, s: Party, r: Key, d: Key) {
    && s.public == p.publicOf(s.secret) && s.root == p.kdfRoot(r, d)
    && s.send == Some(ChainAt(p.kdf, p.kdfChain(r, d), s.sent))
  }

  /** One side sends `lost` messages that never arrive and one that does; the other steps with `fresh_`. */
  datatype Turn = Turn(lost: nat, fresh_: Secret)

  function Nothing(n: nat): seq<Secret> {
    seq(n, _ => [])
  }

  function TurnMessage(p: Primitives, s: Party, turn: Turn): Result<(Header, MessageKeys), RatchetError> {
    Message(p, s, Nothing(turn.lost + 1))
  }

  function Answer(p: Primitives, s: Party, t: Party, turn: Turn): Decrypted
    requires TurnMessage(p, s, turn).Ok?
  {
    Decrypt(p, t, TurnMessage(p, s, turn).value.0, turn.fresh_)
  }

  /** The message is within the limits on skipping, of a chain below its limit and a key pair new to the other side. */
  predicate TurnEnabled(p: Primitives, s: Party, t: Party, turn: Turn) {
    && TurnMessage(p, s, turn).Ok?
    && s.sent + turn.lost <= MAX_SKIP
    && t.peer != Some(s.public) && (s.public, s.sent + turn.lost) !in t.skipped
    && (t.recv.Some? ==> s.prevSendLength <= t.recv.value.number + MAX_SKIP)
  }

  lemma {:induction false} SendingOn(p: Primitives, s: Party, r: Key, d: Key, n: nat)
    requires Leads(p, s, r, d) && s.sent + n < MAX_MESSAGES_PER_CHAIN
    ensures var t := Sent(p, s, Nothing(n)); t == s.(send := t.send, sent := s.sent + n) && Leads(p, t, r, d)
    ensures Message(p, s, Nothing(n + 1))
         == Ok((Header(s.public, s.prevSendLength, s.sent + n),
                MessageKeys(StreamKey(p.kdf, p.kdfChain(r, d), s.sent + n), s.sent + n)))
  {
    hide StreamKey, ChainAt, Encrypt;
    assert Nothing(n + 1)[..n] == Nothing(n);
    if n > 0 {
      SendingOn(p, s, r, d, n - 1);
      assert Nothing(n)[..n - 1] == Nothing(n - 1);
      NextOfChain(p, Sent(p, s, Nothing(n - 1)), [], p.kdfChain(r, d));
    }
    NextOfChain(p, Sent(p, s, Nothing(n)), [], p.kdfChain(r, d));
  }

  lemma TakeKeepsSending(p: Primitives, s: Party, h: Header)
    ensures var t := TakeFromChain(p, s, h).state;
            t.send == s.send && t.sent == s.sent && t.public == s.public && t.secret == s.secret && t.root == s.root
  {
    hide Stash;
  }

  /** A receiver that steps leads the next exchange. */
  lemma LeadsAfterStep(p: Primitives, t: Party, h: Header, y: Secret)
    requires NeedsStep(t, h) && Id(h) !in t.skipped && SkipsOld(t, h) <= MAX_SKIP
    ensures Leads(p, Decrypt(p, t, h, y).state, p.kdfRoot(t.root, p.diffieHellman(t.secret, h.dh)),
                  p.diffieHellman(y, h.dh))
  {
    hide LeaveChain, TakeFromChain, ChainAt;
    LeaveKeepsKeys(p, t, h);
    var v := NewReceiveChain(p, LeaveChain(p, t, h), h.dh, y);
    TakeKeepsSending(p, v, h);
    StartIsZero(p.kdf, p.kdfChain(p.kdfRoot(t.root, p.diffieHellman(t.secret, h.dh)), p.diffieHellman(y, h.dh)));
  }

  /** One exchange: the answer is the sender's key exactly if the steps coincide, and the roles change. */
  lemma OneTurn(p: Primitives, s: Party, t: Party, r: Key, d: Key, turn: Turn)
    requires Leads(p, s, r, d) && TurnEnabled(p, s, t, turn)
    ensures var m, o, d' := TurnMessage(p, s, turn), Answer(p, s, t, turn), p.diffieHellman(t.secret, s.public);
            && m.Ok? && o.result.Ok?
            && (o.result == Ok(m.value.1) <==> Coincide(p, r, d, t.root, d', s.sent + turn.lost))
            && Leads(p, o.state, p.kdfRoot(t.root, d'), p.diffieHellman(turn.fresh_, s.public))
            && Sent(p, s, Nothing(turn.lost + 1)).root == p.kdfRoot(r, d)
  {
    hide StreamKey, ChainAt, Decrypt, Coincide, Encrypt, Leads, Sent, Message;
    SendingOn(p, s, r, d, turn.lost);
    SendingOn(p, s, r, d, turn.lost + 1);
    var h := TurnMessage(p, s, turn).value.0;
    NewPairKey(p, t, h, turn.fresh_);
    LeadsAfterStep(p, t, h, turn.fresh_);
    LeadsRoot(p, s, r, d);
    SameKeyIff(p, r, d, t.root, p.diffieHellman(t.secret, s.public), s.sent + turn.lost);
  }

  lemma LeadsRoot(p: Primitives, s: Party, r: Key, d: Key)
    requires Leads(p, s, r, d)
    ensures s.root == p.kdfRoot(r, d)
  {
  }

  /** Both parties after an exchange, the one that sends next first. */
  function AfterTurn(p: Primitives, s: Party, t: Party, turn: Turn): (Party, Party)
    requires TurnMessage(p, s, turn).Ok?
  {
    (Answer(p, s, t, turn).state, Sent(p, s, Nothing(turn.lost + 1)))
  }

  /** An alternating conversation: every exchange is enabled after those before it. */
  ghost predicate Conversation(p: Primitives, s: Party, t: Party, turns: seq<Turn>)
    decreases |turns|
  {
    turns == []
    || (TurnEnabled(p, s, t, turns[0])
        && var (s', t') := AfterTurn(p, s, t, turns[0]); Conversation(p, s', t', turns[1..]))
  }

  /** In no exchange does the receiver's key equal the sender's. */
  ghost predicate AllWrong(p: Primitives, s: Party, t: Party, turns: seq<Turn>)
    decreases |turns|
  {
    turns == []
    || (&& TurnMessage(p, s, turns[0]).Ok? && Answer(p, s, t, turns[0]).result.Ok?
        && Answer(p, s, t, turns[0]).result != Ok(TurnMessage(p, s, turns[0]).value.1)
        && var (s', t') := AfterTurn(p, s, t, turns[0]); AllWrong(p, s', t', turns[1..]))
  }

  /** In some exchange a key derivation function maps the different inputs of the two sides to one result. */
  ghost predicate SomeCollision(p: Primitives, s: Party, t: Party, r: Key, d: Key, turns: seq<Turn>)
    decreases |turns|
  {
    && turns != [] && TurnMessage(p, s, turns[0]).Ok?
    && var d', n := p.diffieHellman(t.secret, s.public), s.sent + turns[0].lost;
       || Collide2(p.kdfRoot, r, d, t.root, d')
       || Collide2(p.kdfChain, r, d, t.root, d')
       || StreamsCollide(p.kdf, p.kdfChain(r, d), p.kdfChain(t.root, d'), n)
       || var (s', t') := AfterTurn(p, s, t, turns[0]);
          SomeCollision(p, s', t', p.kdfRoot(t.root, d'), p.diffieHellman(turns[0].fresh_, s.public), turns[1..])
  }

  /**
   * Once one party sends from a root key that is not the other's, no exchange ever agrees again, however long the
   * conversation, unless a function collides on inputs of that conversation.
   */
  lemma {:induction false} NeverAgain(p: Primitives, s: Party, t: Party, r: Key, d: Key, turns: seq<Turn>)
    requires Leads(p, s, r, d) && r != t.root && Conversation(p, s, t, turns)
    ensures AllWrong(p, s, t, turns) || SomeCollision(p, s, t, r, d, turns)
    decreases |turns|
  {
    hide Leads, TurnEnabled, Answer, TurnMessage, Sent, StreamsCollide;
    if turns != [] {
      OneTurn(p, s, t, r, d, turns[0]);
      var (s', t') := AfterTurn(p, s, t, turns[0]);
      var d' := p.diffieHellman(t.secret, s.public);
      if p.kdfRoot(t.root, d') != p.kdfRoot(r, d) {
        NeverAgain(p, s', t', p.kdfRoot(t.root, d'), p.diffieHellman(turns[0].fresh_, s.public), turns[1..]);
      }
    }
  }

  // ------------------------------------------------------------------------------------------
  // Over runs: agreement until a step is forced
  // ------------------------------------------------------------------------------------------

  lemma {:induction false} SentAdd(p: Primitives, s: Party, a: seq<Secret>, b: seq<Secret>)
    ensures Sent(p, s, a + b) == Sent(p, Sent(p, s, a), b)
    ensures b != [] ==> Message(p, s, a + b) == Message(p, Sent(p, s, a), b)
    decreases |b|
  {
    hide Encrypt;
    if b == [] {
      assert a + b == a;
    } else {
      assert (a + b)[..|a + b| - 1] == a + b[..|b| - 1];
      SentAdd(p, s, a, b[..|b| - 1]);
    }
  }

  lemma {:induction false} SentKeepsPeer(p: Primitives, s: Party, xs: seq<Secret>)
    ensures Sent(p, s, xs).peer == s.peer
    decreases |xs|
  {
    if xs != [] {
      SentKeepsPeer(p, s, xs[..|xs| - 1]);
    }
  }

  /** None of these messages makes the party step: its chain is below its limit every time. */
  ghost predicate NoneForced(p: Primitives, s: Party, xs: seq<Secret>) {
    forall i: nat :: i < |xs| ==> Sent(p, s, xs[..i]).sent < MAX_MESSAGES_PER_CHAIN
  }

  /** The last step that these messages force is at message `i`. */
  ghost predicate LastForced(p: Primitives, s: Party, xs: seq<Secret>, i: nat) {
    i < |xs| <= i + MAX_MESSAGES_PER_CHAIN && Sent(p, s, xs[..i]).sent >= MAX_MESSAGES_PER_CHAIN
  }

  lemma {:induction false} FindLastForced(p: Primitives, s: Party, xs: seq<Secret>) returns (i: nat)
    requires s.peer.Some? && !NoneForced(p, s, xs)
    ensures LastForced(p, s, xs, i)
    decreases |xs|
  {
    hide Sent;
    var n := |xs| - 1;
    if Sent(p, s, xs[..n]).sent >= MAX_MESSAGES_PER_CHAIN {
      i := n;
    } else {
      if NoneForced(p, s, xs[..n]) {
        NoneForcedSnoc(p, s, xs);
      }
      i := FindLastForced(p, s, xs[..n]);
      assert xs[..n][..i] == xs[..i];
      if n == i + MAX_MESSAGES_PER_CHAIN {
        SentKeepsPeer(p, s, xs[..i]);
        ForcedChain(p, Sent(p, s, xs[..i]), xs[i..n]);
        assert xs[..i] + xs[i..n] == xs[..n];
        SentAdd(p, s, xs[..i], xs[i..n]);
      }
    }
  }

  lemma NoneForcedSnoc(p: Primitives, s: Party, xs: seq<Secret>)
    requires xs != [] && NoneForced(p, s, xs[..|xs| - 1])
    requires Sent(p, s, xs[..|xs| - 1]).sent < MAX_MESSAGES_PER_CHAIN
    ensures NoneForced(p, s, xs)
  {
    hide Sent;
    var front := xs[..|xs| - 1];
    forall i: nat | i < |xs|
      ensures Sent(p, s, xs[..i]).sent < MAX_MESSAGES_PER_CHAIN
    {
      if i < |front| {
        assert front[..i] == xs[..i];
      }
    }
  }

  lemma {:induction false} CountedSends(p: Primitives, s: Party, xs: seq<Secret>)
    requires s.send.Some? && s.sent + |xs| <= MAX_MESSAGES_PER_CHAIN
    ensures Sent(p, s, xs).sent == s.sent + |xs| && Sent(p, s, xs).send.Some?
    decreases |xs|
  {
    if xs != [] {
      CountedSends(p, s, xs[..|xs| - 1]);
    }
  }

  /** No step is forced exactly as long as the chain has room for all of the messages. */
  lemma NoneForcedIff(p: Primitives, s: Party, xs: seq<Secret>)
    requires s.send.Some? && xs != []
    ensures NoneForced(p, s, xs) <==> s.sent + |xs| <= MAX_MESSAGES_PER_CHAIN
  {
    hide Sent;
    if s.sent + |xs| <= MAX_MESSAGES_PER_CHAIN {
      forall i: nat | i < |xs|
        ensures Sent(p, s, xs[..i]).sent < MAX_MESSAGES_PER_CHAIN
      {
        CountedSends(p, s, xs[..i]);
      }
    } else {
      var room := if s.sent >= MAX_MESSAGES_PER_CHAIN then 0 else MAX_MESSAGES_PER_CHAIN - s.sent;
      NothingSent(p, s, xs);
      if room > 0 {
        CountedSends(p, s, xs[..room]);
      }
      assert Sent(p, s, xs[..room]).sent >= MAX_MESSAGES_PER_CHAIN;
    }
  }

  lemma NothingSent(p: Primitives, s: Party, xs: seq<Secret>)
    ensures Sent(p, s, xs[..0]) == s
  {
  }

  /** The world after one party has sent. */
  function SentWorld(p: Primitives, w: World, who: Role, xs: seq<Secret>): World
    decreases |xs|
  {
    if xs == [] then w else SendStep(p, SentWorld(p, w, who, xs[..|xs| - 1]), who, xs[|xs| - 1])
  }

  lemma {:induction false} SentWorldIs(p: Primitives, w: World, who: Role, xs: seq<Secret>)
    requires Inv(p, w) && PartyOf(w, who).peer.Some? && NoneForced(p, PartyOf(w, who), xs)
    ensures var v := SentWorld(p, w, who, xs);
            && Inv(p, v) && PartyOf(v, who) == Sent(p, PartyOf(w, who), xs) && PartyOf(v, who).peer.Some?
            && PartyOf(v, Other(who)) == PartyOf(w, Other(who)) && v.pairs == w.pairs
    decreases |xs|
  {
    hide Inv, Encrypt, NoneForced;
    if xs != [] {
      var n := |xs| - 1;
      NoneForcedFront(p, PartyOf(w, who), xs);
      SentWorldIs(p, w, who, xs[..n]);
      var v := SentWorld(p, w, who, xs[..n]);
      SendKeepsInv(p, v, who, xs[n]);
      SentKeepsPeer(p, PartyOf(w, who), xs);
    }
  }

  lemma NoneForcedFront(p: Primitives, s: Party, xs: seq<Secret>)
    requires xs != [] && NoneForced(p, s, xs)
    ensures NoneForced(p, s, xs[..|xs| - 1]) && Sent(p, s, xs[..|xs| - 1]).sent < MAX_MESSAGES_PER_CHAIN
  {
    hide Sent;
    var front := xs[..|xs| - 1];
    forall i: nat | i < |front|
      ensures Sent(p, s, front[..i]).sent < MAX_MESSAGES_PER_CHAIN
    {
      assert front[..i] == xs[..i];
    }
  }

  /** A message sent without a forced step and delivered at once gives its sender's key. */
  lemma UnforcedAgrees(p: Primitives, w: World, who: Role, x: Secret, y: Secret)
    requires Commutes(p) && Inv(p, w) && FreshSecret(p, w, y)
    requires PartyOf(w, who).peer.Some? && PartyOf(w, who).sent < MAX_MESSAGES_PER_CHAIN
    ensures var m, t := Encrypt(p, PartyOf(w, who), x).result, PartyOf(w, Other(who));
            && m.Ok?
            && var (h, keys) := m.value;
               SkipsOld(t, h) <= MAX_SKIP && SkipsNew(t, h) <= MAX_SKIP ==> Decrypt(p, t, h, y).result == Ok(keys)
  {
    hide FreshSecret, Inv, Encrypt, SendStep, DeliverStep, Decrypt, SkipsOld, SkipsNew;
    SentIsNew(p, w, who, x);
    SendKeepsInv(p, w, who, x);
    var w' := SendStep(p, w, who, x);
    SameSecretsFresh(p, w, w', y);
    DeliveryAgrees(p, w', Other(who), |w.net|, y);
  }

  /** The condition of the next result: the last forced step and the receiver's coincide. */
  ghost predicate LastCoincides(p: Primitives, s: Party, xs: seq<Secret>, t: Party)
    requires s.peer.Some?
  {
    exists i: nat :: LastForced(p, s, xs, i) && CoincidesAt(p, s, xs, i, t)
  }

  ghost predicate CoincidesAt(p: Primitives, s: Party, xs: seq<Secret>, i: nat, t: Party)
    requires s.peer.Some? && i < |xs|
  {
    SentKeepsPeer(p, s, xs[..i]);
    CoincideFor(p, Sent(p, s, xs[..i]), xs[i], t, |xs| - 1 - i)
  }

  /** The two answers of a message in a world within the bounds: the sender's key, or that key only by coincidence. */
  lemma AgreesInWorld(p: Primitives, w: World, who: Role, xs: seq<Secret>, y: Secret)
    requires Commutes(p) && Inv(p, w) && PartyOf(w, who).peer.Some? && xs != []
    requires FreshSecret(p, w, y) && forall i :: 0 <= i < |xs| ==> FreshSecret(p, w, xs[i])
    ensures var s, t := PartyOf(w, who), PartyOf(w, Other(who));
            var m := Message(p, s, xs);
            && m.Ok?
            && var (h, keys) := m.value;
               SkipsOld(t, h) <= MAX_SKIP && SkipsNew(t, h) <= MAX_SKIP ==>
                 (Decrypt(p, t, h, y).result == Ok(keys) <==> NoneForced(p, s, xs) || LastCoincides(p, s, xs, t))
  {
    hide Inv, FreshSecret, Encrypt, Decrypt, SkipsOld, SkipsNew, NoneForced, LastCoincides, Sent;
    var s, t, n := PartyOf(w, who), PartyOf(w, Other(who)), |xs| - 1;
    if NoneForced(p, s, xs) {
      NoneForcedFront(p, s, xs);
      SentWorldIs(p, w, who, xs[..n]);
      var v := SentWorld(p, w, who, xs[..n]);
      SameSecretsFresh(p, w, v, y);
      UnforcedAgrees(p, v, who, xs[n], y);
    } else {
      ForcedInWorld(p, w, who, xs, y);
    }
  }

  lemma ForcedInWorld(p: Primitives, w: World, who: Role, xs: seq<Secret>, y: Secret)
    requires Inv(p, w) && PartyOf(w, who).peer.Some? && !NoneForced(p, PartyOf(w, who), xs)
    requires forall i :: 0 <= i < |xs| ==> FreshSecret(p, w, xs[i])
    ensures var s, t := PartyOf(w, who), PartyOf(w, Other(who));
            && xs != [] && Message(p, s, xs).Ok?
            && var (h, keys) := Message(p, s, xs).value;
               SkipsOld(t, h) <= MAX_SKIP && SkipsNew(t, h) <= MAX_SKIP ==>
                 (Decrypt(p, t, h, y).result == Ok(keys) <==> LastCoincides(p, s, xs, t))
  {
    hide Inv, FreshSecret, Encrypt, Decrypt, SkipsOld, NoneForced, Sent, CoincideFor, Message;
    var s, t := PartyOf(w, who), PartyOf(w, Other(who));
    var i := FindLastForced(p, s, xs);
    forall j: nat | LastForced(p, s, xs, j)
      ensures ForcedAt(p, s, xs, j, t, y)
    {
      UnknownInWorld(p, w, Other(who), xs[j], |xs| - 1 - j);
      ForcedDecides(p, s, xs, j, t, y);
    }
    assert ForcedAt(p, s, xs, i, t, y);
  }

  /** What the forced step at message `i` decides. */
  ghost predicate ForcedAt(p: Primitives, s: Party, xs: seq<Secret>, i: nat, t: Party, y: Secret)
    requires s.peer.Some? && i < |xs|
  {
    && Message(p, s, xs).Ok?
    && var (h, keys) := Message(p, s, xs).value;
       SkipsOld(t, h) <= MAX_SKIP && SkipsNew(t, h) <= MAX_SKIP ==>
         (Decrypt(p, t, h, y).result == Ok(keys) <==> CoincidesAt(p, s, xs, i, t))
  }

  lemma ForcedDecides(p: Primitives, s: Party, xs: seq<Secret>, i: nat, t: Party, y: Secret)
    requires s.peer.Some? && LastForced(p, s, xs, i)
    requires t.peer != Some(p.publicOf(xs[i])) && (p.publicOf(xs[i]), |xs| - 1 - i) !in t.skipped
    ensures ForcedAt(p, s, xs, i, t, y)
  {
    hide Encrypt, Decrypt, SkipsOld, Sent, CoincideFor, Message;
    SentKeepsPeer(p, s, xs[..i]);
    var u, rest := Sent(p, s, xs[..i]), xs[i..];
    assert xs[..i] + rest == xs;
    SentAdd(p, s, xs[..i], rest);
    ForcedChain(p, u, rest);
    ForcedStepDisagrees(p, u, rest, t, y);
  }

  lemma UnknownInWorld(p: Primitives, w: World, who: Role, x: Secret, n: nat)
    requires Inv(p, w) && FreshSecret(p, w, x)
    ensures PartyOf(w, who).peer != Some(p.publicOf(x)) && (p.publicOf(x), n) !in PartyOf(w, who).skipped
  {
    hide PartyInv, DistinctPublics, DeliveredKnown, NetInv;
    UnknownIsNotCached(p, w.pairs, w.counts, w.delivered, EpochOf(w, who), PartyOf(w, who), x, n);
  }

  /**
   * The exact reach of the agreement. After any run within the bounds let one party send any number of messages; the
   * last of them, delivered at once within the limits on skipping, gives the sender's key if and only if its chain had
   * room for all of them, so that none forced a step, or the last step forced and the receiver's coincide.
   */
  lemma AgreesIffNotForced(p: Primitives, root: Key, bobSecret: Secret, aliceSecret: Secret, actions: seq<Action>,
                           who: Role, xs: seq<Secret>, y: Secret)
    requires Commutes(p) && p.publicOf(bobSecret) != p.publicOf(aliceSecret)
    requires ValidRun(p, InitialWorld(p, root, bobSecret, aliceSecret), actions)
    requires var w := After(p, InitialWorld(p, root, bobSecret, aliceSecret), actions);
             && PartyOf(w, who).peer.Some? && xs != []
             && FreshSecret(p, w, y) && forall i :: 0 <= i < |xs| ==> FreshSecret(p, w, xs[i])
    ensures var w := After(p, InitialWorld(p, root, bobSecret, aliceSecret), actions);
            var s, t := PartyOf(w, who), PartyOf(w, Other(who));
            && Message(p, s, xs).Ok?
            && var (h, keys) := Message(p, s, xs).value;
               SkipsOld(t, h) <= MAX_SKIP && SkipsNew(t, h) <= MAX_SKIP ==>
                 (Decrypt(p, t, h, y).result == Ok(keys)
                  <==> s.sent + |xs| <= MAX_MESSAGES_PER_CHAIN || LastCoincides(p, s, xs, t))
  {
    hide InitialWorld, ValidRun, After, Inv, FreshSecret, Message, Decrypt, NoneForced, LastCoincides;
    InitialInv(p, root, bobSecret, aliceSecret);
    RunKeepsInv(p, InitialWorld(p, root, bobSecret, aliceSecret), actions);
    var w := After(p, InitialWorld(p, root, bobSecret, aliceSecret), actions);
    AgreesInWorld(p, w, who, xs, y);
    ChainsSay(p, w, who);
    NoneForcedIff(p, PartyOf(w, who), xs);
  }

  /** Two adjacent root keys are equal: a root step, with the secret the two parties share, leads nowhere. */
  ghost predicate RootStays(p: Primitives, s: Party, t: Party) {
    || p.kdfRoot(s.root, p.diffieHellman(t.secret, s.public)) == s.root
    || p.kdfRoot(t.root, p.diffieHellman(s.secret, t.public)) == t.root
  }

  /**
   * After a run within the bounds at whose end a party has reached its limit, its next message forces a step. From
   * then on no exchange agrees, in either direction and however long the conversation, unless a root step led nowhere
   * or a function collides on inputs of the conversation.
   */
  lemma ForcedStepEndsAgreement(p: Primitives, root: Key, bobSecret: Secret, aliceSecret: Secret,
                                actions: seq<Action>, who: Role, x: Secret, turns: seq<Turn>)
    requires Commutes(p) && p.publicOf(bobSecret) != p.publicOf(aliceSecret)
    requires ValidRun(p, InitialWorld(p, root, bobSecret, aliceSecret), actions)
    requires var w := After(p, InitialWorld(p, root, bobSecret, aliceSecret), actions);
             && PartyOf(w, who).peer.Some? && PartyOf(w, who).sent >= MAX_MESSAGES_PER_CHAIN
             && Conversation(p, ReadyToSend(p, PartyOf(w, who), x), PartyOf(w, Other(who)), turns)
    ensures var w := After(p, InitialWorld(p, root, bobSecret, aliceSecret), actions);
            var s, t := PartyOf(w, who), PartyOf(w, Other(who));
            || AllWrong(p, ReadyToSend(p, s, x), t, turns)
            || SomeCollision(p, ReadyToSend(p, s, x), t, s.root, StepSecret(p, s, x), turns)
            || RootStays(p, s, t)
  {
    hide After, ValidRun, Conversation, AllWrong, SomeCollision, InitialWorld, HeaderInStep;
    var w := After(p, InitialWorld(p, root, bobSecret, aliceSecret), actions);
    var s, t := PartyOf(w, who), PartyOf(w, Other(who));
    if s.root == t.root {
      RootsInStep(p, root, bobSecret, aliceSecret, actions);
    } else {
      assert Leads(p, ReadyToSend(p, s, x), s.root, StepSecret(p, s, x));
      NeverAgain(p, ReadyToSend(p, s, x), t, s.root, StepSecret(p, s, x), turns);
    }
  }

  // ------------------------------------------------------------------------------------------
  // A run that reaches it
  // ------------------------------------------------------------------------------------------

  function Sends(who: Role, n: nat): seq<Action> {
    seq(n, _ => Send(who, []))
  }

  lemma {:induction false} ManySends(p: Primitives, w: World, n: nat)
    requires Inv(p, w) && w.alice.peer.Some? && w.alice.sent + n <= MAX_MESSAGES_PER_CHAIN
    ensures ValidRun(p, w, Sends(Alice, n))
    ensures var w' := After(p, w, Sends(Alice, n));
            && Inv(p, w') && w'.alice.peer.Some? && w'.alice.sent == w.alice.sent + n
            && w'.alice.peer == w.alice.peer && (w.alice.send.Some? ==> w'.alice.root == w.alice.root)
            && w'.pairs == w.pairs && w'.bob == w.bob
    decreases n
  {
    hide Inv, SendStep;
    if n > 0 {
      assert Sends(Alice, n)[1..] == Sends(Alice, n - 1);
      SendKeepsInv(p, w, Alice, []);
      AliceAfterSend(p, w);
      ManySends(p, SendStep(p, w, Alice, []), n - 1);
    }
  }

  lemma AliceAfterSend(p: Primitives, w: World)
    requires Inv(p, w) && w.alice.peer.Some? && w.alice.sent < MAX_MESSAGES_PER_CHAIN
    ensures var w' := SendStep(p, w, Alice, []);
            && w'.alice.peer == w.alice.peer && w'.alice.sent == w.alice.sent + 1 && w'.alice.send.Some?
            && (w.alice.send.Some? ==> w'.alice.root == w.alice.root)
            && w'.pairs == w.pairs && w'.bob == w.bob
  {
    hide CacheInv, DistinctPublics, DeliveredKnown, NetInv, RootAt, EpochKey, StreamKey, ChainAt;
  }

  /**
   * The smallest run in which agreement is lost: Alice sends 200 messages, Bob gets only her 201st, accepts it, and has
   * her key exactly if a step from the shared root key and one from the root key after it coincide.
   */
  lemma ForcedStepReached(p: Primitives, root: Key, bobSecret: Secret, aliceSecret: Secret, x: Secret, y: Secret)
    requires p.publicOf(bobSecret) != p.publicOf(aliceSecret)
    requires p.publicOf(x) != p.publicOf(aliceSecret) && p.publicOf(x) != p.publicOf(bobSecret)
    ensures var w0, run := InitialWorld(p, root, bobSecret, aliceSecret), Sends(Alice, MAX_MESSAGES_PER_CHAIN);
            && ValidRun(p, w0, run)
            && var s, t, bob := After(p, w0, run).alice, After(p, w0, run).bob, p.publicOf(bobSecret);
               && Encrypt(p, s, x).result.Ok?
               && var (h, keys) := Encrypt(p, s, x).result.value;
                  && Decrypt(p, t, h, y).result.Ok?
                  && (Decrypt(p, t, h, y).result == Ok(keys)
                      <==> Coincide(p, p.kdfRoot(root, p.diffieHellman(aliceSecret, bob)), p.diffieHellman(x, bob),
                                    root, p.diffieHellman(bobSecret, p.publicOf(x)), 0))
  {
    hide Inv, Decrypt, Encrypt, After, ValidRun, Coincide;
    var w0 := InitialWorld(p, root, bobSecret, aliceSecret);
    InitialInv(p, root, bobSecret, aliceSecret);
    ManySends(p, w0, MAX_MESSAGES_PER_CHAIN);
    var w := After(p, w0, Sends(Alice, MAX_MESSAGES_PER_CHAIN));
    assert [x][..0] == [];
    ForcedStepDisagrees(p, w.alice, [x], w.bob, y);
  }

  /** An example with functions of fixed length, in which the keys do differ. */
  lemma ForcedStepReachedIn32Bytes(root: Key, bobSecret: Secret, aliceSecret: Secret, x: Secret, y: Secret)
    requires |root| == 32 && |bobSecret| == 32 && |aliceSecret| == 32 && |x| == 32
    requires bobSecret != aliceSecret && x != aliceSecret && x != bobSecret
    ensures var p := Counting();
            var w0, run := InitialWorld(p, root, bobSecret, aliceSecret), Sends(Alice, MAX_MESSAGES_PER_CHAIN);
            && KeepsLength(p) && Commutes(p) && ValidRun(p, w0, run)
            && var s, t := After(p, w0, run).alice, After(p, w0, run).bob;
               && Encrypt(p, s, x).result.Ok?
               && var (h, keys) := Encrypt(p, s, x).result.value;
                  Decrypt(p, t, h, y).result.Ok? && Decrypt(p, t, h, y).result != Ok(keys)
  {
    hide Decrypt, Encrypt, After, ValidRun, Coincide;
    var p, bob := Counting(), bobSecret;
    CountingKeepsLength();
    ForcedStepReached(p, root, bobSecret, aliceSecret, x, y);
    var next := p.kdfRoot(root, p.diffieHellman(aliceSecret, bob));
    CountingCoincidesIff(next, p.diffieHellman(x, bob), root, p.diffieHellman(bobSecret, x), 0);
    NextByte(root[0]);
    assert next[0] == root[0] + 1;
  }

  lemma NextByte(b: bv8)
    ensures b + 1 != b
  {
  }
}
