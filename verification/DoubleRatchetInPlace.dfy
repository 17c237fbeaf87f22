/**
 * The Double Ratchet as the code performs it: fields overwritten in place, chains advanced in place, and a
 * cache of skipped keys that never holds more than MAX_SKIPPED_KEY_CACHE of them.
 *
 * Which of several oldest keys is thrown out depends on the iteration order of a hash map, so it is left
 * open here: `DecryptsTo` allows exactly the states that throwing out an oldest key at a time can lead to. The
 * methods agree with the functions of `DoubleRatchetSteps` in everything but the cache, which is always a part of
 * theirs, and all of it as long as there was room.
 */
module DoubleRatchetInPlace {
  import opened Prelude
  import opened SymmetricRatchet
  import opened DoubleRatchetSteps

  lemma {:induction false} OldestIdExists(s: set<KeyId>, x: KeyId)
    requires x in s
    ensures exists m :: m in s && forall k :: k in s ==> m.1 <= k.1
    decreases x.1
  {
    if y :| y in s && y.1 < x.1 {
      OldestIdExists(s, y);
    }
  }

  /** `cache` is a part of `all`. */
  ghost predicate PartOf(cache: map<KeyId, Key>, all: map<KeyId, Key>) {
    forall id :: id in cache ==> id in all && cache[id] == all[id]
  }

  lemma PartOfMore(cache: map<KeyId, Key>, next: map<KeyId, Key>, all: map<KeyId, Key>, id: KeyId, key: Key)
    requires PartOf(cache, all) && PartOf(next, cache[id := key])
    ensures PartOf(next, all[id := key])
  {
  }

  lemma DropSize(cache: map<KeyId, Key>, id: KeyId)
    requires id in cache
    ensures |cache - {id}| == |cache| - 1
  {
    assert (cache - {id}).Keys == cache.Keys - {id};
  }

  lemma {:induction false} StashPart(kdf: Kdf, from: Public, c: Chain, cache: map<KeyId, Key>, all: map<KeyId,
                                     Key>, count: nat)
    requires PartOf(cache, all)
    ensures Stash(kdf, from, c, cache, count).0 == Stash(kdf, from, c, all, count).0
    ensures PartOf(Stash(kdf, from, c, cache, count).1, Stash(kdf, from, c, all, count).1)
  {
    if count > 0 {
      StashPart(kdf, from, c, cache, all, count - 1);
    }
  }

  /** The state `s` is `t`, but for keys missing from the cache; none is missing if `roomy`. */
  ghost predicate Matches(s: Party, t: Party, roomy: bool) {
    && s == t.(skipped := s.skipped)
    && PartOf(s.skipped, t.skipped)
    && (roomy ==> s.skipped == t.skipped)
  }

  /** The cache `after` is `cache` with one more key, in place of an oldest one if it was full. */
  ghost predicate Stored(cache: map<KeyId, Key>, id: KeyId, key: Key, after: map<KeyId, Key>) {
    if |cache| < MAX_SKIPPED_KEY_CACHE then after == cache[id := key]
    else exists o: KeyId :: IsOldest(cache, o) && after == (cache - {o})[id := key]
  }

  ghost predicate IsOldest(cache: map<KeyId, Key>, o: KeyId) {
    o in cache && forall k :: k in cache ==> o.1 <= k.1
  }

  /** The cache `after` may come of skipping `count` messages of the chain `c`. */
  ghost predicate StashesTo(kdf: Kdf, from: Public, c: Chain, cache: map<KeyId, Key>, count: nat,
                            after: map<KeyId, Key>)
  {
    if count == 0 then after == cache
    else
      var d := Stash(kdf, from, c, cache, count - 1).0;
      exists m :: StashesTo(kdf, from, c, cache, count - 1, m)
                  && Stored(m, (from, d.number), Current(kdf, d), after)
  }

  lemma NothingStashedTo(kdf: Kdf, from: Public, c: Chain, cache: map<KeyId, Key>)
    ensures StashesTo(kdf, from, c, cache, 0, cache)
  {
  }

  lemma StashesOneMore(kdf: Kdf, from: Public, c: Chain, cache: map<KeyId, Key>, n: nat, m: map<KeyId, Key>,
                       after: map<KeyId, Key>)
    requires StashesTo(kdf, from, c, cache, n, m)
    requires var d := Stash(kdf, from, c, cache, n).0; Stored(m, (from, d.number), Current(kdf, d), after)
    ensures StashesTo(kdf, from, c, cache, n + 1, after)
  {
    hide Stored;
  }

  /** The state `t` may come of taking the key of the header from the receiving chain. */
  ghost predicate TakesTo(p: Primitives, s: Party, h: Header, t: Party) {
    var o := TakeFromChain(p, s, h);
    if o.result.Err? then t == s
    else t == o.state.(skipped := t.skipped)
         && StashesTo(p.kdf, h.dh, s.recv.value, s.skipped, h.number - s.recv.value.number, t.skipped)
  }

  /** The state `t` may come of leaving the receiving chain. */
  ghost predicate LeavesTo(p: Primitives, s: Party, h: Header, t: Party) {
    && t == s.(recv := None, skipped := t.skipped)
    && if s.recv.None? then t.skipped == s.skipped
       else StashesTo(p.kdf, if s.peer.Some? then s.peer.value else seq(32, _ => 0), s.recv.value, s.skipped,
                      SkipsOld(s, h), t.skipped)
  }

  /** The state `t` may come of decrypting the header. */
  ghost predicate DecryptsTo(p: Primitives, s: Party, h: Header, x: Secret, t: Party) {
    if Id(h) in s.skipped then t == s.(skipped := s.skipped - {Id(h)})
    else if !NeedsStep(s, h) then TakesTo(p, s, h, t)
    else if SkipsOld(s, h) > MAX_SKIP then t == s.(recv := None)
    else exists m :: LeavesTo(p, s, h, m) && TakesTo(p, NewReceiveChain(p, m, h.dh, x), h, t)
  }

  /** How many messages of the current receiving chain come before the one named by the header. */
  function Ahead(s: Party, h: Header): nat {
    if s.recv.Some? && h.number > s.recv.value.number then h.number - s.recv.value.number else 0
  }

  lemma PartOfItself(cache: map<KeyId, Key>)
    ensures PartOf(cache, cache)
  {
  }

  lemma NotTaken(p: Primitives, s: Party, h: Header, roomy: bool)
    requires s.recv.None? || h.number < s.recv.value.number || h.number - s.recv.value.number > MAX_SKIP
    ensures Matches(s, TakeFromChain(p, s, h).state, roomy) && TakesTo(p, s, h, s)
    ensures TakeFromChain(p, s, h).result == Err(if s.recv.None? then NoRecvChain
                                                 else if h.number < s.recv.value.number then ReplayDetected(h.number)
                                                 else TooManySkipped(h.number - s.recv.value.number))
  {
    hide Stash;
  }

  /** The state after a key is taken, whatever of the skipped keys the cache `t.skipped` still holds. */
  lemma Taken(p: Primitives, s: Party, h: Header, t: Party, roomy: bool)
    requires s.recv.Some? && 0 <= h.number - s.recv.value.number <= MAX_SKIP
    requires var (c, all) := Stash(p.kdf, h.dh, s.recv.value, s.skipped, h.number - s.recv.value.number);
             && t == s.(recv := Some(Next(p.kdf, c)), skipped := t.skipped)
             && PartOf(t.skipped, all) && (roomy ==> t.skipped == all)
    requires StashesTo(p.kdf, h.dh, s.recv.value, s.skipped, h.number - s.recv.value.number, t.skipped)
    ensures Matches(t, TakeFromChain(p, s, h).state, roomy) && TakesTo(p, s, h, t)
    ensures var c := Stash(p.kdf, h.dh, s.recv.value, s.skipped, h.number - s.recv.value.number).0;
            TakeFromChain(p, s, h).result == Ok(MessageKeys(Current(p.kdf, c), c.number))
  {
    hide Stash, Next, Current, PartOf, StashesTo;
  }

  class DoubleRatchet {
    var rootKey: Key
    var sendChain: RatchetState?
    var recvChain: RatchetState?
    var dhSelfSecret: Secret
    var dhSelfPublic: Public
    var dhPeerPublic: Option<Public>
    var prevSendChainLength: nat
    var currentChainMessages: nat
    var skippedKeys: map<KeyId, Key>

    ghost predicate Valid()
      reads this
    {
      sendChain != null ==> sendChain != recvChain
    }

    ghost function View(): Party
      reads this, sendChain, recvChain
    {
      Party(rootKey,
            if sendChain == null then None else Some(sendChain.View()),
            if recvChain == null then None else Some(recvChain.View()),
            dhSelfSecret, dhSelfPublic, dhPeerPublic,
            prevSendChainLength, currentChainMessages, skippedKeys)
    }

    constructor Alice(p: Primitives, root: Key, bobPublic: Public, secret: Secret)
      ensures Valid() && fresh(sendChain) && recvChain == null
      ensures View() == InitAlice(p, root, bobPublic, secret)
    {
      var dhOutput := p.diffieHellman(secret, bobPublic);
      var chain := new RatchetState(p.kdf, p.kdfChain(root, dhOutput));
      rootKey := p.kdfRoot(root, dhOutput);
      sendChain := chain;
      recvChain := null;
      dhSelfSecret := secret;
      dhSelfPublic := p.publicOf(secret);
      dhPeerPublic := Some(bobPublic);
      prevSendChainLength := 0;
      currentChainMessages := 0;
      skippedKeys := map[];
    }

    constructor Bob(p: Primitives, root: Key, secret: Secret)
      ensures Valid() && sendChain == null && recvChain == null
      ensures View() == InitBob(p, root, secret)
    {
      rootKey := root;
      sendChain := null;
      recvChain := null;
      dhSelfSecret := secret;
      dhSelfPublic := p.publicOf(secret);
      dhPeerPublic := None;
      prevSendChainLength := 0;
      currentChainMessages := 0;
      skippedKeys := map[];
    }

    /** A new key pair, root key and sending chain. */
    method DhRatchetStep(p: Primitives, peer: Public, freshSecret: Secret)
      requires Valid()
      modifies this
      ensures Valid() && fresh(sendChain) && recvChain == old(recvChain)
      ensures View() == NewSendChain(p, old(View()), peer, freshSecret)
    {
      prevSendChainLength := if sendChain != null then sendChain.messageNumber else 0;
      dhSelfSecret := freshSecret;
      dhSelfPublic := p.publicOf(freshSecret);
      var dhOutput := p.diffieHellman(freshSecret, peer);
      sendChain := new RatchetState(p.kdf, p.kdfChain(rootKey, dhOutput));
      rootKey := p.kdfRoot(rootKey, dhOutput);
      currentChainMessages := 0;
    }

    method RatchetEncrypt(p: Primitives, freshSecret: Secret) returns (r: Result<(Header, MessageKeys), RatchetError>)
      requires Valid()
      modifies this, sendChain
      ensures Valid() && recvChain == old(recvChain) && (sendChain == old(sendChain) || fresh(sendChain))
      ensures Encrypted(View(), r) == Encrypt(p, old(View()), freshSecret)
    {
      if currentChainMessages >= MAX_MESSAGES_PER_CHAIN {
        if dhPeerPublic.Some? {
          DhRatchetStep(p, dhPeerPublic.value, freshSecret);
        }
      }
      if sendChain == null {
        if dhPeerPublic.Some? {
          DhRatchetStep(p, dhPeerPublic.value, freshSecret);
        } else {
          return Err(NoPeerKey);
        }
      }
      var keys := sendChain.Advance(p.kdf);
      currentChainMessages := currentChainMessages + 1;
      r := Ok((Header(dhSelfPublic, prevSendChainLength, keys.sequence), keys));
    }

    /** Skips one message of `chain`; its key goes into the cache, in place of an oldest one if it is full. */
    method StashOne(kdf: Kdf, chain: RatchetState, from: Public)
      modifies `skippedKeys, chain
      ensures chain.View() == Next(kdf, old(chain.View()))
      ensures var all := old(skippedKeys)[(from, old(chain.messageNumber)) := Current(kdf, old(chain.View()))];
              PartOf(skippedKeys, all) && (|old(skippedKeys)| < MAX_SKIPPED_KEY_CACHE ==> skippedKeys == all)
      ensures Stored(old(skippedKeys), (from, old(chain.messageNumber)), Current(kdf, old(chain.View())), skippedKeys)
      ensures |skippedKeys| <= |old(skippedKeys)| + 1
      ensures |old(skippedKeys)| <= MAX_SKIPPED_KEY_CACHE ==> |skippedKeys| <= MAX_SKIPPED_KEY_CACHE
    {
      var intermediate := chain.Advance(kdf);
      if |skippedKeys| >= MAX_SKIPPED_KEY_CACHE {
        ghost var some :| some in skippedKeys.Keys;
        OldestIdExists(skippedKeys.Keys, some);
        var oldest: KeyId :| oldest in skippedKeys.Keys && forall k :: k in skippedKeys.Keys ==> oldest.1 <= k.1;
        DropSize(skippedKeys, oldest);
        assert IsOldest(skippedKeys, oldest);
        skippedKeys := skippedKeys - {oldest};
      }
      PutSize(skippedKeys, (from, intermediate.sequence), intermediate.key);
      skippedKeys := skippedKeys[(from, intermediate.sequence) := intermediate.key];
    }

    method StashMany(kdf: Kdf, chain: RatchetState, from: Public, count: nat)
      modifies `skippedKeys, chain
      ensures chain.View() == Stash(kdf, from, old(chain.View()), old(skippedKeys), count).0
      ensures StashesTo(kdf, from, old(chain.View()), old(skippedKeys), count, skippedKeys)
      ensures PartOf(skippedKeys, Stash(kdf, from, old(chain.View()), old(skippedKeys), count).1)
      ensures |old(skippedKeys)| + count <= MAX_SKIPPED_KEY_CACHE ==>
                skippedKeys == Stash(kdf, from, old(chain.View()), old(skippedKeys), count).1
      ensures |skippedKeys| <= |old(skippedKeys)| + count
      ensures |old(skippedKeys)| <= MAX_SKIPPED_KEY_CACHE ==> |skippedKeys| <= MAX_SKIPPED_KEY_CACHE
    {
      hide StashesTo, Stored, PartOf, Next, Current;
      ghost var c, m := chain.View(), skippedKeys;
      NothingStashedTo(kdf, from, c, m);
      PartOfItself(m);
      for i := 0 to count
        invariant chain.View() == Stash(kdf, from, c, m, i).0
        invariant StashesTo(kdf, from, c, m, i, skippedKeys)
        invariant PartOf(skippedKeys, Stash(kdf, from, c, m, i).1)
        invariant |m| + i <= MAX_SKIPPED_KEY_CACHE ==> skippedKeys == Stash(kdf, from, c, m, i).1
        invariant |skippedKeys| <= |m| + i
        invariant |m| <= MAX_SKIPPED_KEY_CACHE ==> |skippedKeys| <= MAX_SKIPPED_KEY_CACHE
      {
        ghost var before := skippedKeys;
        ghost var (d, all) := Stash(kdf, from, c, m, i);
        StashOne(kdf, chain, from);
        PartOfMore(before, skippedKeys, all, (from, d.number), Current(kdf, d));
        StashesOneMore(kdf, from, c, m, i, before, skippedKeys);
      }
    }
  
    /** Caches the keys of `chain` before message `until`. */
    method SkipMessageKeys(kdf: Kdf, chain: RatchetState, from: Public, until: nat)
      returns (r: Result<(), RatchetError>)
      modifies `skippedKeys, chain
      ensures var n := old(chain.messageNumber);
              var count := if until < n then 0 else until - n;
              && (r == if count > MAX_SKIP then Err(TooManySkipped(count)) else Ok(()))
              && (r.Err? ==> skippedKeys == old(skippedKeys))
              && (r.Ok? ==> StashesTo(kdf, from, old(chain.View()), old(skippedKeys), count, skippedKeys))
              && (r.Ok? ==> PartOf(skippedKeys, Stash(kdf, from, old(chain.View()), old(skippedKeys), count).1))
              && (r.Ok? && |old(skippedKeys)| + count <= MAX_SKIPPED_KEY_CACHE ==>
                    skippedKeys == Stash(kdf, from, old(chain.View()), old(skippedKeys), count).1)
              && (|skippedKeys| <= |old(skippedKeys)| + count)
      ensures |old(skippedKeys)| <= MAX_SKIPPED_KEY_CACHE ==> |skippedKeys| <= MAX_SKIPPED_KEY_CACHE
    {
      hide StashesTo, PartOf;
      NothingStashedTo(kdf, from, chain.View(), skippedKeys);
      PartOfItself(skippedKeys);
      if until < chain.messageNumber {
        return Ok(());
      }
      var skipCount := until - chain.messageNumber;
      if skipCount > MAX_SKIP {
        return Err(TooManySkipped(skipCount));
      }
      StashMany(kdf, chain, from, skipCount);
      r := Ok(());
    }

    /** Takes the key of message `header.number` from the receiving chain. */
    method TakeKey(p: Primitives, header: Header) returns (r: Result<MessageKeys, RatchetError>)
      requires Valid()
      modifies `skippedKeys, recvChain
      ensures var o := TakeFromChain(p, old(View()), header);
              && Matches(View(), o.state, |old(skippedKeys)| + Ahead(old(View()), header) <= MAX_SKIPPED_KEY_CACHE)
              && r == o.result
      ensures TakesTo(p, old(View()), header, View())
      ensures |old(skippedKeys)| <= MAX_SKIPPED_KEY_CACHE ==> |skippedKeys| <= MAX_SKIPPED_KEY_CACHE
    {
      hide TakeFromChain, Matches, PartOf, TakesTo, StashesTo;
      ghost var s := View();
      ghost var roomy := |s.skipped| + Ahead(s, header) <= MAX_SKIPPED_KEY_CACHE;
      if recvChain == null {
        NotTaken(p, s, header, roomy);
        return Err(NoRecvChain);
      }
      ghost var c := recvChain.View();
      PartOfItself(skippedKeys);
      NothingStashedTo(p.kdf, header.dh, c, skippedKeys);
      if header.number > recvChain.messageNumber {
        var skipCount := header.number - recvChain.messageNumber;
        if skipCount > MAX_SKIP {
          NotTaken(p, s, header, roomy);
          return Err(TooManySkipped(skipCount));
        }
        StashMany(p.kdf, recvChain, header.dh, skipCount);
      } else if header.number < recvChain.messageNumber {
        NotTaken(p, s, header, roomy);
        return Err(ReplayDetected(header.number));
      }
      assert recvChain.View() == Stash(p.kdf, header.dh, c, s.skipped, header.number - c.number).0;
      var keys := recvChain.Advance(p.kdf);
      Taken(p, s, header, View(), roomy);
      r := Ok(keys);
    }

    /** Leaves the receiving chain, caching its outstanding keys; a chain that cannot be left that way is lost. */
    method LeaveOldChain(p: Primitives, header: Header) returns (r: Result<(), RatchetError>)
      requires Valid() && NeedsStep(View(), header)
      modifies `recvChain, `skippedKeys, recvChain
      ensures Valid() && recvChain == null
      ensures var s := old(View());
              && (r == if SkipsOld(s, header) > MAX_SKIP then Err(TooManySkipped(SkipsOld(s, header))) else Ok(()))
              && (r.Err? ==> View() == s.(recv := None))
              && (r.Ok? ==> LeavesTo(p, s, header, View()))
              && (r.Ok? ==> Matches(View(), LeaveChain(p, s, header),
                                    |s.skipped| + SkipsOld(s, header) <= MAX_SKIPPED_KEY_CACHE))
              && |skippedKeys| <= |s.skipped| + SkipsOld(s, header)
      ensures |old(skippedKeys)| <= MAX_SKIPPED_KEY_CACHE ==> |skippedKeys| <= MAX_SKIPPED_KEY_CACHE
    {
      hide StashesTo, PartOf, Stash;
      PartOfItself(skippedKeys);
      var peerForSkip := if dhPeerPublic.Some? then dhPeerPublic.value else seq(32, _ => 0);
      if recvChain == null {
        return Ok(());
      }
      var recv := recvChain;
      recvChain := null;
      r := SkipMessageKeys(p.kdf, recv, peerForSkip, header.previousChainLength);
    }

    /** A receiving chain for the key `peer`, and a new key pair and sending chain. */
    method OpenReceiveChain(p: Primitives, peer: Public, freshSecret: Secret)
      requires Valid()
      modifies this
      ensures Valid() && fresh(sendChain) && fresh(recvChain)
      ensures View() == NewReceiveChain(p, old(View()), peer, freshSecret)
    {
      var dhOutput := p.diffieHellman(dhSelfSecret, peer);
      recvChain := new RatchetState(p.kdf, p.kdfChain(rootKey, dhOutput));
      rootKey := p.kdfRoot(rootKey, dhOutput);
      dhPeerPublic := Some(peer);
      hide NewSendChain;
      DhRatchetStep(p, peer, freshSecret);
    }

    /** Leaves the old receiving chain and steps to the key pair of the header. */
    method StepToHeader(p: Primitives, header: Header, freshSecret: Secret) returns (r: Result<(), RatchetError>)
      requires Valid() && NeedsStep(View(), header)
      modifies this, recvChain
      ensures Valid() && (sendChain == old(sendChain) || fresh(sendChain)) && (recvChain == null || fresh(recvChain))
      ensures var s := old(View());
              && (r == if SkipsOld(s, header) > MAX_SKIP then Err(TooManySkipped(SkipsOld(s, header))) else Ok(()))
              && (r.Err? ==> View() == s.(recv := None))
              && (r.Ok? ==> exists m :: LeavesTo(p, s, header, m)
                                        && View() == NewReceiveChain(p, m, header.dh, freshSecret))
              && (r.Ok? ==> Matches(View(), NewReceiveChain(p, LeaveChain(p, s, header), header.dh, freshSecret),
                                    |s.skipped| + SkipsOld(s, header) <= MAX_SKIPPED_KEY_CACHE))
              && |skippedKeys| <= |s.skipped| + SkipsOld(s, header)
      ensures |old(skippedKeys)| <= MAX_SKIPPED_KEY_CACHE ==> |skippedKeys| <= MAX_SKIPPED_KEY_CACHE
    {
      hide LeaveChain, SkipsOld, Matches, NewReceiveChain, LeavesTo;
      ghost var s := View();
      r := LeaveOldChain(p, header);
      if r.Ok? {
        ghost var roomy := |s.skipped| + SkipsOld(s, header) <= MAX_SKIPPED_KEY_CACHE;
        NewChainPart(p, View(), LeaveChain(p, s, header), header.dh, freshSecret, roomy);
        NewChainKeeps(p, View(), header.dh, freshSecret);
        OpenReceiveChain(p, header.dh, freshSecret);
      }
    }

    /** Decrypting gives what `Decrypt` gives, and never grows the cache past its bound. */
    method RatchetDecrypt(p: Primitives, header: Header, freshSecret: Secret)
      returns (r: Result<MessageKeys, RatchetError>)
      requires Valid()
      modifies this, recvChain
      ensures Valid() && (sendChain == old(sendChain) || fresh(sendChain))
      ensures recvChain == null || recvChain == old(recvChain) || fresh(recvChain)
      ensures var s := old(View());
              var o := Decrypt(p, s, header, freshSecret);
              var most := |s.skipped| + SkipsOld(s, header) + SkipsNew(s, header);
              && Matches(View(), o.state, Id(header) in s.skipped || most <= MAX_SKIPPED_KEY_CACHE)
              && DecryptsTo(p, s, header, freshSecret, View())
              && (WithinBounds(s, header) ==> View() == o.state)
              && r == o.result
      ensures |old(skippedKeys)| <= MAX_SKIPPED_KEY_CACHE ==> |skippedKeys| <= MAX_SKIPPED_KEY_CACHE
    {
      hide Matches, WithinBounds, TakeFromChain, LeaveChain, NewReceiveChain, Ahead, TakesTo, LeavesTo;
      ghost var s := View();
      ghost var fits := |s.skipped| + SkipsOld(s, header) <= MAX_SKIPPED_KEY_CACHE;
      ghost var all := |s.skipped| + SkipsOld(s, header) + SkipsNew(s, header) <= MAX_SKIPPED_KEY_CACHE;
      var cacheKey := (header.dh, header.number);
      if cacheKey in skippedKeys {
        var cachedKey := skippedKeys[cacheKey];
        DropSize(skippedKeys, cacheKey);
        skippedKeys := skippedKeys - {cacheKey};
        MatchesItself(View(), true);
        return Ok(MessageKeys(cachedKey, header.number));
      }
      RoomForSkips(s, header);
      ghost var u := s;
      if dhPeerPublic != Some(header.dh) {
        var step := StepToHeader(p, header, freshSecret);
        if step.Err? {
          MatchesItself(View(), all);
          return Err(step.error);
        }
        u := NewReceiveChain(p, LeaveChain(p, s, header), header.dh, freshSecret);
        NewChainIsUnused(p, LeaveChain(p, s, header), header, freshSecret);
      } else {
        MatchesItself(s, fits);
      }
      ghost var t := View();
      TakePart(p, t, u, header, fits);
      r := TakeKey(p, header);
      MatchesVia(View(), TakeFromChain(p, t, header).state, TakeFromChain(p, u, header).state,
                 |t.skipped| + Ahead(t, header) <= MAX_SKIPPED_KEY_CACHE, fits, all);
    }
  }

  lemma MatchesItself(s: Party, roomy: bool)
    ensures Matches(s, s, roomy)
  {
  }

  lemma MatchesVia(s: Party, t: Party, u: Party, roomy: bool, fits: bool, all: bool)
    requires Matches(s, t, roomy) && Matches(t, u, fits) && (all ==> roomy && fits)
    ensures Matches(s, u, all) && (all ==> s == u)
  {
  }

  lemma RoomForSkips(s: Party, h: Header)
    requires Id(h) !in s.skipped
    ensures WithinBounds(s, h) ==> |s.skipped| + SkipsOld(s, h) + SkipsNew(s, h) <= MAX_SKIPPED_KEY_CACHE
    ensures !NeedsStep(s, h) ==> SkipsNew(s, h) == Ahead(s, h)
  {
  }

  lemma NewChainPart(p: Primitives, s: Party, t: Party, peer: Public, x: Secret, roomy: bool)
    requires Matches(s, t, roomy)
    ensures Matches(NewReceiveChain(p, s, peer, x), NewReceiveChain(p, t, peer, x), roomy)
  {
  }

  lemma NewChainKeeps(p: Primitives, s: Party, peer: Public, x: Secret)
    ensures NewReceiveChain(p, s, peer, x).skipped == s.skipped
  {
  }

  lemma NewChainIsUnused(p: Primitives, s: Party, h: Header, x: Secret)
    ensures Ahead(NewReceiveChain(p, s, h.dh, x), h) == h.number
  {
  }

  /** Taking a key does not depend on what is missing from the cache. */
  lemma TakePart(p: Primitives, s: Party, t: Party, h: Header, roomy: bool)
    requires Matches(s, t, roomy)
    ensures TakeFromChain(p, s, h).result == TakeFromChain(p, t, h).result
    ensures Matches(TakeFromChain(p, s, h).state, TakeFromChain(p, t, h).state, roomy)
    ensures Ahead(s, h) == Ahead(t, h)
  {
    if s.recv.Some? && 0 <= h.number - s.recv.value.number <= MAX_SKIP {
      StashPart(p.kdf, h.dh, s.recv.value, s.skipped, t.skipped, h.number - s.recv.value.number);
    }
  }
}
