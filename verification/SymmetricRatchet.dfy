/**
 * The symmetric-key ratchet of `hidra_core/src/ratchet.rs`: a KDF chain that hands out one key per
 * message, and the receiving ratchet that keeps the keys of messages it has skipped.
 *
 * HKDF-SHA256 is a parameter: `Kdf` holds its two expansions of a chain key, under the chain label and
 * under the message label. Nothing is assumed about either.
 */
module SymmetricRatchet {
  import opened Prelude

  type Key = seq<bv8>

  datatype Kdf = Kdf(chain: Key -> Key, message: Key -> Key)

  datatype MessageKeys = MessageKeys(key: Key, sequence: nat)

  datatype RatchetError =
    | CannotGoBackward(current: nat, target: nat)
    | TooManySkipped(count: nat)
    | ReplayDetected(seq_: nat)
    | NoPeerKey
    | NoRecvChain

  const MAX_SKIP: nat := 100
  const MAX_SKIPPED_KEY_CACHE: nat := 256

  // ------------------------------------------------------------------------------------------
  // The chain as a value, and the key stream it stands for
  // ------------------------------------------------------------------------------------------

  datatype Chain = Chain(key: Key, number: nat)

  function Start(kdf: Kdf, root: Key): Chain {
    Chain(kdf.chain(root), 0)
  }

  function Next(kdf: Kdf, c: Chain): Chain {
    Chain(kdf.chain(c.key), c.number + 1)
  }

  /** The key of the message numbered `c.number`. */
  function Current(kdf: Kdf, c: Chain): Key {
    kdf.message(c.key)
  }

  /** The chain started from `root`, after `n` messages. */
  ghost function ChainAt(kdf: Kdf, root: Key, n: nat): Chain {
    if n == 0 then Start(kdf, root) else Next(kdf, ChainAt(kdf, root, n - 1))
  }

  /** The stream K(0), K(1), ... of message keys that `root` determines. */
  ghost function StreamKey(kdf: Kdf, root: Key, n: nat): Key {
    Current(kdf, ChainAt(kdf, root, n))
  }

  lemma {:induction false} ChainAtNumber(kdf: Kdf, root: Key, n: nat)
    ensures ChainAt(kdf, root, n).number == n
  {
    if n > 0 {
      ChainAtNumber(kdf, root, n - 1);
    }
  }

  /** A function applied `n` times. */
  ghost function Iterated(f: Key -> Key, k: Key, n: nat): Key {
    if n == 0 then k else f(Iterated(f, k, n - 1))
  }

  /** K(n) is the message key of the root after `n + 1` steps of the chain function. */
  lemma {:induction false} StreamKeyIs(kdf: Kdf, root: Key, n: nat)
    ensures ChainAt(kdf, root, n).key == Iterated(kdf.chain, root, n + 1)
    ensures StreamKey(kdf, root, n) == kdf.message(Iterated(kdf.chain, root, n + 1))
  {
    if n > 0 {
      StreamKeyIs(kdf, root, n - 1);
    } else {
      assert Iterated(kdf.chain, root, 1) == kdf.chain(Iterated(kdf.chain, root, 0));
    }
  }

  /** The state of a sender or receiver chain, updated in place. */
  class RatchetState {
    var chainKey: Key
    var messageNumber: nat

    ghost function View(): Chain
      reads this
    {
      Chain(chainKey, messageNumber)
    }

    constructor (kdf: Kdf, rootKey: Key)
      ensures View() == ChainAt(kdf, rootKey, 0)
    {
      chainKey := kdf.chain(rootKey);
      messageNumber := 0;
    }

    method Advance(kdf: Kdf) returns (keys: MessageKeys)
      modifies this
      ensures keys == MessageKeys(Current(kdf, old(View())), old(messageNumber))
      ensures View() == Next(kdf, old(View()))
    {
      var encryptionKey := kdf.message(chainKey);
      chainKey := kdf.chain(chainKey);
      var sequence := messageNumber;
      messageNumber := messageNumber + 1;
      keys := MessageKeys(encryptionKey, sequence);
    }

    /** Advances past the messages before `target` and returns the key of `target`. */
    method SkipTo(kdf: Kdf, target: nat, ghost root: Key) returns (r: Result<MessageKeys, RatchetError>)
      requires View() == ChainAt(kdf, root, messageNumber)
      modifies this
      ensures r.Ok? <==> old(messageNumber) <= target <= old(messageNumber) + MAX_SKIP
      ensures r.Ok? ==> r.value == MessageKeys(StreamKey(kdf, root, target), target)
      ensures r.Ok? ==> View() == ChainAt(kdf, root, target + 1)
      ensures r.Err? ==> View() == old(View())
    {
      if target < messageNumber {
        return Err(CannotGoBackward(messageNumber, target));
      }
      var skipCount := target - messageNumber;
      if skipCount > MAX_SKIP {
        return Err(TooManySkipped(skipCount));
      }
      for i := 0 to skipCount
        invariant messageNumber == old(messageNumber) + i
        invariant View() == ChainAt(kdf, root, messageNumber)
      {
        var _ := Advance(kdf);
      }
      var keys := Advance(kdf);
      r := Ok(keys);
    }
  }

  // ------------------------------------------------------------------------------------------
  // The receiving ratchet as a value
  // ------------------------------------------------------------------------------------------

  datatype Recv = Recv(chain: Chain, cache: map<nat, Key>)

  lemma {:induction false} OldestExists(s: set<nat>, x: nat)
    requires x in s
    ensures exists m :: m in s && forall k :: k in s ==> m <= k
    decreases x
  {
    if y :| y in s && y < x {
      OldestExists(s, y);
    }
  }

  ghost function Oldest(s: set<nat>): (m: nat)
    requires s != {}
    ensures m in s && forall k :: k in s ==> m <= k
  {
    var x :| x in s;
    OldestExists(s, x);
    var m :| m in s && forall k :: k in s ==> m <= k;
    m
  }

  /** What is thrown out to make room for one more key. */
  ghost function Evicted(cache: map<nat, Key>): set<nat> {
    if |cache| >= MAX_SKIPPED_KEY_CACHE then {Oldest(cache.Keys)} else {}
  }

  /** Skips one message, keeping its key. */
  ghost function SkipOne(kdf: Kdf, s: Recv): Recv {
    Recv(Next(kdf, s.chain),
         (s.cache - Evicted(s.cache))[s.chain.number := Current(kdf, s.chain)])
  }

  /** Skips `count` messages; the second component collects the numbers whose keys were thrown out. */
  ghost function SkipMany(kdf: Kdf, s: Recv, count: nat): (Recv, set<nat>) {
    if count == 0 then (s, {})
    else
      var (before, gone) := SkipMany(kdf, s, count - 1);
      (SkipOne(kdf, before), gone + Evicted(before.cache))
  }

  datatype Outcome = Outcome(state: Recv, result: Result<MessageKeys, RatchetError>, evicted: set<nat>)

  ghost function KeyFor(kdf: Kdf, s: Recv, sequence: nat): Outcome {
    if sequence in s.cache then
      Outcome(s.(cache := s.cache - {sequence}), Ok(MessageKeys(s.cache[sequence], sequence)), {})
    else if sequence < s.chain.number then
      Outcome(s, Err(ReplayDetected(sequence)), {})
    else if sequence - s.chain.number > MAX_SKIP then
      Outcome(s, Err(TooManySkipped(sequence - s.chain.number)), {})
    else
      var (t, gone) := SkipMany(kdf, s, sequence - s.chain.number);
      Outcome(t.(chain := Next(kdf, t.chain)), Ok(MessageKeys(Current(kdf, t.chain), t.chain.number)), gone)
  }

  /** The receiving ratchet itself. */
  class RecvRatchet {
    const state: RatchetState
    var skippedKeys: map<nat, Key>

    ghost function View(): Recv
      reads this, state
    {
      Recv(state.View(), skippedKeys)
    }

    constructor (kdf: Kdf, rootKey: Key)
      ensures View() == Recv(ChainAt(kdf, rootKey, 0), map[])
      ensures fresh(state)
    {
      state := new RatchetState(kdf, rootKey);
      skippedKeys := map[];
    }

    /** Skips one message: its key goes into the cache, at the cost of the oldest one if there is no room. */
    method Stash(kdf: Kdf)
      modifies this, state
      ensures View() == SkipOne(kdf, old(View()))
    {
      var intermediate := state.Advance(kdf);
      if |skippedKeys| >= MAX_SKIPPED_KEY_CACHE {
        ghost var some :| some in skippedKeys.Keys;
        OldestExists(skippedKeys.Keys, some);
        var oldest: nat :| oldest in skippedKeys.Keys && forall k :: k in skippedKeys.Keys ==> oldest <= k;
        assert oldest == Oldest(skippedKeys.Keys);
        skippedKeys := skippedKeys - {oldest};
      }
      skippedKeys := skippedKeys[intermediate.sequence := intermediate.key];
    }

    method Lookup(kdf: Kdf, sequence: nat) returns (r: Result<MessageKeys, RatchetError>)
      modifies this, state
      ensures View() == KeyFor(kdf, old(View()), sequence).state
      ensures r == KeyFor(kdf, old(View()), sequence).result
    {
      if sequence in skippedKeys {
        var cachedKey := skippedKeys[sequence];
        skippedKeys := skippedKeys - {sequence};
        return Ok(MessageKeys(cachedKey, sequence));
      }
      if sequence == state.messageNumber {
        var keys := state.Advance(kdf);
        r := Ok(keys);
      } else if sequence > state.messageNumber {
        var skipCount := sequence - state.messageNumber;
        if skipCount > MAX_SKIP {
          return Err(TooManySkipped(skipCount));
        }
        for i := 0 to skipCount
          invariant View() == SkipMany(kdf, old(View()), i).0
        {
          Stash(kdf);
        }
        var keys := state.Advance(kdf);
        r := Ok(keys);
      } else {
        r := Err(ReplayDetected(sequence));
      }
    }
  }

  // ------------------------------------------------------------------------------------------
  // Every run of the receiving ratchet refines the key stream
  // ------------------------------------------------------------------------------------------

  /** A receiving ratchet together with what has been handed out and what has been thrown out. */
  datatype Ledger = Ledger(recv: Recv, delivered: set<nat>, evicted: set<nat>)

  ghost function AfterCall(kdf: Kdf, g: Ledger, sequence: nat): Ledger {
    var o := KeyFor(kdf, g.recv, sequence);
    Ledger(o.state,
           g.delivered + (if o.result.Ok? then {sequence} else {}),
           g.evicted + o.evicted)
  }

  ghost function AfterCalls(kdf: Kdf, root: Key, calls: seq<nat>): Ledger {
    if calls == [] then Ledger(Recv(ChainAt(kdf, root, 0), map[]), {}, {})
    else AfterCall(kdf, AfterCalls(kdf, root, calls[..|calls| - 1]), calls[|calls| - 1])
  }

  /** The answer to the call at position `i` of the run. */
  ghost function Answer(kdf: Kdf, root: Key, calls: seq<nat>, i: nat): Result<MessageKeys, RatchetError>
    requires i < |calls|
  {
    KeyFor(kdf, AfterCalls(kdf, root, calls[..i]).recv, calls[i]).result
  }

  ghost predicate Partition(n: nat, delivered: set<nat>, cached: set<nat>, evicted: set<nat>) {
    && (forall k :: k in delivered || k in cached || k in evicted <==> 0 <= k < n)
    && delivered !! cached
    && delivered !! evicted
    && cached !! evicted
  }

  ghost predicate OnStream(kdf: Kdf, root: Key, cache: map<nat, Key>) {
    forall k :: k in cache ==> cache[k] == StreamKey(kdf, root, k)
  }

  ghost predicate AllBelow(evicted: set<nat>, cached: set<nat>) {
    forall e, k :: e in evicted && k in cached ==> e < k
  }

  /** What holds of a receiving ratchet after any run. */
  ghost predicate Refines(kdf: Kdf, root: Key, g: Ledger) {
    && g.recv.chain == ChainAt(kdf, root, g.recv.chain.number)
    && OnStream(kdf, root, g.recv.cache)
    && |g.recv.cache| <= MAX_SKIPPED_KEY_CACHE
    && Partition(g.recv.chain.number, g.delivered, g.recv.cache.Keys, g.evicted)
    && AllBelow(g.evicted, g.recv.cache.Keys)
  }

  lemma SkipOneCache(kdf: Kdf, s: Recv)
    ensures SkipOne(kdf, s).cache.Keys == s.cache.Keys - Evicted(s.cache) + {s.chain.number}
  {
    hide Evicted;
    assert (s.cache - Evicted(s.cache)).Keys == s.cache.Keys - Evicted(s.cache);
  }

  /** Making room and storing one more key keeps the cache within its bound. */
  lemma SkipOneSize(kdf: Kdf, s: Recv)
    requires |s.cache| <= MAX_SKIPPED_KEY_CACHE
    ensures |SkipOne(kdf, s).cache| <= MAX_SKIPPED_KEY_CACHE
  {
    SkipOneCache(kdf, s);
    var kept := s.cache - Evicted(s.cache);
    assert kept.Keys == s.cache.Keys - Evicted(s.cache);
  }

  lemma KeySetsAfterSkip(n: nat, delivered: set<nat>, cached: set<nat>, evicted: set<nat>, out: set<nat>)
    requires Partition(n, delivered, cached, evicted) && AllBelow(evicted, cached)
    requires out <= cached && AllBelow(out, cached - out)
    ensures Partition(n + 1, delivered, cached - out + {n}, evicted + out)
    ensures AllBelow(evicted + out, cached - out + {n})
  {
  }

  lemma EvictedIsOldest(cache: map<nat, Key>)
    ensures Evicted(cache) <= cache.Keys
    ensures AllBelow(Evicted(cache), cache.Keys - Evicted(cache))
  {
  }

  lemma SkipOneStream(kdf: Kdf, root: Key, s: Recv)
    requires s.chain == ChainAt(kdf, root, s.chain.number) && OnStream(kdf, root, s.cache)
    ensures SkipOne(kdf, s).chain == ChainAt(kdf, root, s.chain.number + 1)
    ensures SkipOne(kdf, s).chain.number == s.chain.number + 1
    ensures OnStream(kdf, root, SkipOne(kdf, s).cache)
  {
    hide Evicted;
  }

  lemma SkipOneKeys(kdf: Kdf, s: Recv, delivered: set<nat>, evicted: set<nat>)
    requires Partition(s.chain.number, delivered, s.cache.Keys, evicted) && AllBelow(evicted, s.cache.Keys)
    ensures var t := SkipOne(kdf, s);
            && Partition(s.chain.number + 1, delivered, t.cache.Keys, evicted + Evicted(s.cache))
            && AllBelow(evicted + Evicted(s.cache), t.cache.Keys)
  {
    hide *;
    var n, cached, out := s.chain.number, s.cache.Keys, Evicted(s.cache);
    SkipOneCache(kdf, s);
    EvictedIsOldest(s.cache);
    KeySetsAfterSkip(n, delivered, cached, evicted, out);
  }

  lemma SkipOneRefines(kdf: Kdf, root: Key, g: Ledger)
    requires Refines(kdf, root, g)
    ensures Refines(kdf, root, Ledger(SkipOne(kdf, g.recv), g.delivered, g.evicted + Evicted(g.recv.cache)))
  {
    hide Partition, AllBelow, OnStream, ChainAt, Evicted, SkipOne;
    SkipOneStream(kdf, root, g.recv);
    SkipOneSize(kdf, g.recv);
    SkipOneKeys(kdf, g.recv, g.delivered, g.evicted);
  }

  lemma {:induction false} SkipManyRefines(kdf: Kdf, root: Key, g: Ledger, count: nat)
    requires Refines(kdf, root, g)
    ensures var (t, gone) := SkipMany(kdf, g.recv, count);
            && Refines(kdf, root, Ledger(t, g.delivered, g.evicted + gone))
            && t.chain.number == g.recv.chain.number + count
  {
    hide Refines, Evicted;
    if count == 0 {
      assert g.evicted + {} == g.evicted;
    } else {
      SkipManyRefines(kdf, root, g, count - 1);
      var (before, gone) := SkipMany(kdf, g.recv, count - 1);
      SkipOneRefines(kdf, root, Ledger(before, g.delivered, g.evicted + gone));
      assert g.evicted + gone + Evicted(before.cache) == g.evicted + (gone + Evicted(before.cache));
    }
  }

  lemma KeySetsAfterUse(n: nat, delivered: set<nat>, cached: set<nat>, evicted: set<nat>, k: nat)
    requires Partition(n, delivered, cached, evicted) && AllBelow(evicted, cached)
    ensures k in cached ==> Partition(n, delivered + {k}, cached - {k}, evicted)
    ensures k == n ==> Partition(n + 1, delivered + {k}, cached, evicted)
    ensures AllBelow(evicted, cached - {k})
    ensures k in cached <==> k < n && k !in delivered && k !in evicted
    ensures k in delivered || k in evicted ==> k < n
  {
  }

  lemma CachedCallRefines(kdf: Kdf, root: Key, g: Ledger, sequence: nat)
    requires Refines(kdf, root, g) && sequence in g.recv.cache
    ensures Refines(kdf, root, AfterCall(kdf, g, sequence))
    ensures KeyFor(kdf, g.recv, sequence).result == Ok(MessageKeys(StreamKey(kdf, root, sequence), sequence))
  {
    KeySetsAfterUse(g.recv.chain.number, g.delivered, g.recv.cache.Keys, g.evicted, sequence);
    assert AfterCall(kdf, g, sequence).recv.cache.Keys == g.recv.cache.Keys - {sequence};
    assert AfterCall(kdf, g, sequence).evicted == g.evicted;
  }

  /** Handing out the key of the next message. */
  lemma NextIsDelivered(kdf: Kdf, root: Key, g: Ledger)
    requires Refines(kdf, root, g)
    ensures var n := g.recv.chain.number;
            && Refines(kdf, root, Ledger(g.recv.(chain := Next(kdf, g.recv.chain)), g.delivered + {n}, g.evicted))
            && Current(kdf, g.recv.chain) == StreamKey(kdf, root, n)
  {
    hide Partition, AllBelow, OnStream;
    var n := g.recv.chain.number;
    KeySetsAfterUse(n, g.delivered, g.recv.cache.Keys, g.evicted, n);
  }

  lemma AheadCallRefines(kdf: Kdf, root: Key, g: Ledger, sequence: nat)
    requires Refines(kdf, root, g) && g.recv.chain.number <= sequence <= g.recv.chain.number + MAX_SKIP
    requires sequence !in g.recv.cache
    ensures Refines(kdf, root, AfterCall(kdf, g, sequence))
    ensures KeyFor(kdf, g.recv, sequence).result == Ok(MessageKeys(StreamKey(kdf, root, sequence), sequence))
  {
    hide Refines, SkipMany, Current, StreamKey, Next;
    SkipManyRefines(kdf, root, g, sequence - g.recv.chain.number);
    var (t, gone) := SkipMany(kdf, g.recv, sequence - g.recv.chain.number);
    NextIsDelivered(kdf, root, Ledger(t, g.delivered, g.evicted + gone));
  }

  lemma HeldIff(kdf: Kdf, root: Key, g: Ledger, k: nat)
    requires Refines(kdf, root, g)
    ensures k in g.recv.cache <==> k < g.recv.chain.number && k !in g.delivered && k !in g.evicted
    ensures k in g.delivered ==> k < g.recv.chain.number
  {
    hide OnStream, ChainAt, AllBelow;
  }

  /**
   * One call: it succeeds exactly for a number whose key is still held or at most MAX_SKIP ahead, it then
   * returns that number's key of the stream and counts it as delivered, and a failed call changes nothing.
   */
  lemma CallRefines(kdf: Kdf, root: Key, g: Ledger, sequence: nat)
    requires Refines(kdf, root, g)
    ensures Refines(kdf, root, AfterCall(kdf, g, sequence))
    ensures var n, r := g.recv.chain.number, KeyFor(kdf, g.recv, sequence).result;
            && (r.Ok? <==> (sequence < n && sequence !in g.delivered && sequence !in g.evicted)
                           || n <= sequence <= n + MAX_SKIP)
            && (r.Ok? ==> r.value == MessageKeys(StreamKey(kdf, root, sequence), sequence))
            && (r.Ok? ==> sequence !in g.delivered)
            && (r.Err? ==> AfterCall(kdf, g, sequence) == g)
  {
    hide Refines, SkipMany, StreamKey, Next, Current;
    HeldIff(kdf, root, g, sequence);
    if sequence in g.recv.cache {
      CachedCallRefines(kdf, root, g, sequence);
    } else if g.recv.chain.number <= sequence <= g.recv.chain.number + MAX_SKIP {
      AheadCallRefines(kdf, root, g, sequence);
    } else {
      assert AfterCall(kdf, g, sequence) == g;
    }
  }

  lemma {:induction false} RunRefines(kdf: Kdf, root: Key, calls: seq<nat>)
    ensures Refines(kdf, root, AfterCalls(kdf, root, calls))
  {
    if calls != [] {
      var before := calls[..|calls| - 1];
      RunRefines(kdf, root, before);
      CallRefines(kdf, root, AfterCalls(kdf, root, before), calls[|calls| - 1]);
    }
  }

  lemma {:induction false} DeliveredStays(kdf: Kdf, root: Key, calls: seq<nat>, i: nat, j: nat)
    requires i < j <= |calls|
    requires Answer(kdf, root, calls, i).Ok?
    ensures calls[i] in AfterCalls(kdf, root, calls[..j]).delivered
  {
    assert calls[..j][..j - 1] == calls[..j - 1];
    if i + 1 < j {
      DeliveredStays(kdf, root, calls, i, j - 1);
    }
  }

  /** Over any run of calls, a key is handed out at most once, and it is always the stream's key. */
  lemma EachKeyAtMostOnce(kdf: Kdf, root: Key, calls: seq<nat>)
    ensures forall i :: 0 <= i < |calls| && Answer(kdf, root, calls, i).Ok? ==>
                          Answer(kdf, root, calls, i).value == MessageKeys(StreamKey(kdf, root, calls[i]), calls[i])
    ensures forall i, j :: 0 <= i < j < |calls|
                           && Answer(kdf, root, calls, i).Ok? && Answer(kdf, root, calls, j).Ok? ==>
                             calls[i] != calls[j]
  {
    forall i | 0 <= i < |calls| && Answer(kdf, root, calls, i).Ok?
      ensures Answer(kdf, root, calls, i).value == MessageKeys(StreamKey(kdf, root, calls[i]), calls[i])
    {
      RunRefines(kdf, root, calls[..i]);
      CallRefines(kdf, root, AfterCalls(kdf, root, calls[..i]), calls[i]);
    }
    forall i, j | 0 <= i < j < |calls| && Answer(kdf, root, calls, i).Ok? && Answer(kdf, root, calls, j).Ok?
      ensures calls[i] != calls[j]
    {
      DeliveredStays(kdf, root, calls, i, j);
      RunRefines(kdf, root, calls[..j]);
      CallRefines(kdf, root, AfterCalls(kdf, root, calls[..j]), calls[j]);
    }
  }
}
