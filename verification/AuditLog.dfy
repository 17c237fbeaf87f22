/**
 * The HMAC-chained audit log of `hidra_core/src/audit.rs`: what every run of the logger keeps across rotations,
 * and what a verifying chain does and does not protect.
 */
module AuditLog {
  import opened Prelude
  import opened Octets

  // ------------------------------------------------------------------------------------------
  // Events, entries and the chain
  // ------------------------------------------------------------------------------------------

  type Bytes = seq<bv8>

  datatype Severity = Info | Warning | Critical | Fatal

  datatype Event =
    | SessionStart(sessionId: Bytes)
    | SessionEnd(sessionId: Bytes, messages: nat)
    | SessionExpired(sessionId: Bytes, reason: string)
    | KeyExchangeComplete
    | KeyLoaded
    | RekeyInitiated
    | AuthFailure(layer: nat)
    | ReplayDetected(sequence: nat)
    | HeartbeatLost
    | KillTriggered(source: string)
    | TamperDetected(sensor: string)
    | TrngHealthAlarm
    | AnomalyDetected(details: string)
    | Custom(message: string)

  function SeverityOf(e: Event): Severity {
    match e
    case SessionStart(_) => Info
    case SessionEnd(_, _) => Info
    case SessionExpired(_, _) => Warning
    case KeyExchangeComplete => Info
    case KeyLoaded => Info
    case RekeyInitiated => Info
    case AuthFailure(_) => Critical
    case ReplayDetected(_) => Critical
    case HeartbeatLost => Critical
    case KillTriggered(_) => Fatal
    case TamperDetected(_) => Fatal
    case TrngHealthAlarm => Warning
    case AnomalyDetected(_) => Critical
    case Custom(_) => Info
  }

  predicate Counted(e: Event) {
    SeverityOf(e) == Critical || SeverityOf(e) == Fatal
  }

  /** Attacks, failures of the peer and the kill switch are counted; sessions, keys and notes are not. */
  lemma CountedIff(e: Event)
    ensures Counted(e) <==>
            || e.AuthFailure? || e.ReplayDetected? || e.HeartbeatLost?
            || e.KillTriggered? || e.TamperDetected? || e.AnomalyDetected?
  {
  }

  /** The code the logger is built on: HMAC-SHA256 (key, message) and the debug form of an event. */
  datatype Code = Code(hmac: (Bytes, Bytes) -> Bytes, encode: Event -> Bytes)

  const TWO_64: nat := 0x1_0000_0000_0000_0000

  type U64 = x: nat | x < TWO_64

  datatype Entry = Entry(sequence: nat, timestamp: U64, severity: Severity, event: Event, hmac: Bytes)

  /** A 64-bit number, lowest byte first. */
  function LittleEndian(x: nat, n: nat): (b: Bytes)
    ensures |b| == n
    decreases n
  {
    if n == 0 then [] else [ByteOf(x % 256)] + LittleEndian(x / 256, n - 1)
  }

  /** What the HMAC of an entry covers. */
  function Message(code: Code, sequence: nat, timestamp: U64, event: Event): Bytes {
    LittleEndian(sequence, 8) + LittleEndian(timestamp, 8) + code.encode(event)
  }

  lemma {:induction false} LittleEndianAt(x: nat, n: nat, k: nat)
    requires k < n
    ensures LittleEndian(x, n)[k] == ByteOf(Shift(x, k) % 256)
    decreases n
  {
    hide ByteOf;
    if k > 0 {
      LittleEndianAt(x / 256, n - 1, k - 1);
      ShiftFirst(x, k - 1);
    }
  }

  /** The sequence number and the time, lowest byte first, and then the event. */
  lemma MessageLayout(code: Code, sequence: nat, timestamp: U64, event: Event, k: nat)
    requires k < 8
    ensures var m := Message(code, sequence, timestamp, event);
            && |m| == 16 + |code.encode(event)|
            && m[k] == ByteOf(Shift(sequence, k) % 256) && m[8 + k] == ByteOf(Shift(timestamp, k) % 256)
            && m[16..] == code.encode(event)
  {
    hide ByteOf, LittleEndian, Shift;
    LittleEndianAt(sequence, 8, k);
    LittleEndianAt(timestamp, 8, k);
  }

  function Chain(code: Code, key: Bytes, sequence: nat, timestamp: U64, event: Event): Bytes {
    code.hmac(key, Message(code, sequence, timestamp, event))
  }

  /** The entry carries the HMAC that the key before it gives. */
  predicate Follows(code: Code, key: Bytes, e: Entry) {
    e.hmac == Chain(code, key, e.sequence, e.timestamp, e.event)
  }

  predicate Verifies(code: Code, log: seq<Entry>) {
    forall i :: 1 <= i < |log| ==> Follows(code, log[i - 1].hmac, log[i])
  }

  // ------------------------------------------------------------------------------------------
  // The history of a logger
  // ------------------------------------------------------------------------------------------

  datatype Call = Call(timestamp: U64, event: Event)

  /** Every entry ever made by the calls, from the first chain key on. */
  function History(code: Code, key: Bytes, calls: seq<Call>): (h: seq<Entry>)
    ensures |h| == |calls|
  {
    if calls == [] then []
    else
      var h, c := History(code, key, calls[..|calls| - 1]), calls[|calls| - 1];
      h + [EntryAfter(code, key, h, c)]
  }

  function LastKey(key: Bytes, h: seq<Entry>): Bytes {
    if h == [] then key else h[|h| - 1].hmac
  }

  function EntryAfter(code: Code, key: Bytes, h: seq<Entry>, c: Call): Entry {
    Entry(|h|, c.timestamp, SeverityOf(c.event), c.event, Chain(code, LastKey(key, h), |h|, c.timestamp, c.event))
  }

  function CriticalAmong(calls: seq<Call>): nat {
    if calls == [] then 0
    else CriticalAmong(calls[..|calls| - 1]) + if Counted(calls[|calls| - 1].event) then 1 else 0
  }

  /** Entry `e` records call `k`. */
  predicate Records(e: Entry, calls: seq<Call>, k: nat) {
    && k < |calls| && e.sequence == k && e.timestamp == calls[k].timestamp
    && e.event == calls[k].event && e.severity == SeverityOf(e.event)
  }

  /** The entries record consecutive calls, from call `first` on. */
  predicate RecordsFrom(log: seq<Entry>, calls: seq<Call>, first: nat) {
    forall i: nat :: i < |log| ==> Records(log[i], calls, first + i)
  }

  /** The history is a complete, verifying chain with sequence numbers 0, 1, 2, ... */
  lemma {:induction false} HistoryIsChain(code: Code, key: Bytes, calls: seq<Call>)
    ensures var h := History(code, key, calls);
            Verifies(code, h) && RecordsFrom(h, calls, 0) && (h != [] ==> Follows(code, key, h[0]))
  {
    hide Chain, SeverityOf;
    if calls != [] {
      var n := |calls| - 1;
      HistoryIsChain(code, key, calls[..n]);
      var h := History(code, key, calls);
      forall i: nat | i < |h|
        ensures Records(h[i], calls, i)
      {
        if i < n {
          assert Records(History(code, key, calls[..n])[i], calls[..n], 0 + i);
        }
      }
    }
  }

  /** Entries that are the end of a history. */
  predicate EndOf(log: seq<Entry>, h: seq<Entry>) {
    |log| <= |h| && log == h[|h| - |log|..]
  }

  /** At most `maxEntries` entries are kept, except that one is kept if `maxEntries` is zero. */
  function Capacity(maxEntries: nat): nat {
    if maxEntries == 0 then 1 else maxEntries
  }

  /** What a rotation leaves of a full log and the entry that is one too many. */
  function NewerHalf(maxEntries: nat): nat {
    (maxEntries + 2) / 2
  }

  /** How many of the entries of `n` calls are kept: all at first, then from half a log up to a full one, in turns. */
  function Kept(maxEntries: nat, n: nat): nat {
    if n <= maxEntries then n
    else if maxEntries == 0 then 1
    else NewerHalf(maxEntries) + (n - maxEntries - 1) % (maxEntries + 1 - NewerHalf(maxEntries))
  }

  lemma KeptBounds(maxEntries: nat, n: nat)
    ensures n <= NewerHalf(maxEntries) ==> Kept(maxEntries, n) == n
    ensures n > NewerHalf(maxEntries) ==> NewerHalf(maxEntries) <= Kept(maxEntries, n)
    ensures Kept(maxEntries, n) <= Capacity(maxEntries) && Kept(maxEntries, n) <= n
  {
    var m, half := maxEntries, NewerHalf(maxEntries);
    if n > m > 0 {
      QuotientRemainder(n - m - 1, m + 1 - half);
      RemainderAtMost(n - m - 1, m + 1 - half);
    }
  }

  lemma RemainderAtMost(x: nat, p: int)
    requires p > 0
    ensures x % p <= x
  {
    if x < p {
      SmallRemainder(x, p);
    } else {
      QuotientRemainder(x, p);
    }
  }

  lemma NextRemainder(x: nat, p: int)
    requires p > 0
    ensures (x + 1) % p == if x % p == p - 1 then 0 else x % p + 1
  {
    QuotientRemainder(x, p);
    if x % p == p - 1 {
      assert (x / p + 1) * p == x / p * p + p;
      UniqueQuotient(x + 1, p, x / p + 1, 0);
    } else {
      UniqueQuotient(x + 1, p, x / p, x % p + 1);
    }
  }

  /** One call adds an entry; a full log keeps the newer half. */
  lemma KeptNext(maxEntries: nat, n: nat)
    ensures var k := Kept(maxEntries, n);
            Kept(maxEntries, n + 1) == if k < maxEntries then k + 1 else (k + 2) / 2
  {
    var m, half := maxEntries, NewerHalf(maxEntries);
    if n > m > 0 {
      var p := m + 1 - half;
      QuotientRemainder(n - m - 1, p);
      NextRemainder(n - m - 1, p);
    } else if n == m > 0 {
      SmallRemainder(0, m + 1 - half);
    }
  }

  /** Beyond the capacity the older half goes. */
  function Rotated(log: seq<Entry>, maxEntries: nat): seq<Entry> {
    if |log| > maxEntries then log[|log| / 2..] else log
  }

  /** The fields that logging changes. */
  datatype Fields = Fields(entries: seq<Entry>, chainKey: Bytes, nextSeq: nat, criticalCount: nat)

  /** What every run keeps, whatever is logged and however often the log rotates. */
  ghost predicate Sound(code: Code, maxEntries: nat, firstKey: Bytes, calls: seq<Call>, f: Fields) {
    var h := History(code, firstKey, calls);
    && f.nextSeq == |calls| && f.chainKey == LastKey(firstKey, h)
    && f.criticalCount == CriticalAmong(calls)
    && EndOf(f.entries, h) && |f.entries| == Kept(maxEntries, |calls|)
  }

  /** One call on the fields. */
  function Logged(code: Code, maxEntries: nat, f: Fields, c: Call): Fields {
    var hmac := Chain(code, f.chainKey, f.nextSeq, c.timestamp, c.event);
    var e := Entry(f.nextSeq, c.timestamp, SeverityOf(c.event), c.event, hmac);
    Fields(Rotated(f.entries + [e], maxEntries), hmac, f.nextSeq + 1,
           if Counted(c.event) then f.criticalCount + 1 else f.criticalCount)
  }

  lemma CallsGrow(code: Code, key: Bytes, calls: seq<Call>, c: Call)
    ensures var h := History(code, key, calls);
            History(code, key, calls + [c]) == h + [EntryAfter(code, key, h, c)]
    ensures CriticalAmong(calls + [c]) == CriticalAmong(calls) + if Counted(c.event) then 1 else 0
  {
    hide EntryAfter, Counted;
    assert (calls + [c])[..|calls + [c]| - 1] == calls;
  }

  lemma EndGrows(log: seq<Entry>, h: seq<Entry>, e: Entry)
    requires EndOf(log, h)
    ensures EndOf(log + [e], h + [e])
  {
  }

  lemma EndOfEnd(log: seq<Entry>, h: seq<Entry>, from: nat)
    requires EndOf(log, h) && from <= |log|
    ensures EndOf(log[from..], h)
  {
  }

  lemma RotatedIsEnd(log: seq<Entry>, h: seq<Entry>, maxEntries: nat)
    requires EndOf(log, h)
    ensures EndOf(Rotated(log, maxEntries), h)
    ensures |Rotated(log, maxEntries)| == if |log| <= maxEntries then |log| else (|log| + 1) / 2
  {
    hide EndOf;
    if |log| > maxEntries {
      EndOfEnd(log, h, |log| / 2);
    }
  }

  lemma LogKeepsSound(code: Code, maxEntries: nat, key: Bytes, calls: seq<Call>, f: Fields, c: Call)
    requires Sound(code, maxEntries, key, calls, f)
    ensures Sound(code, maxEntries, key, calls + [c], Logged(code, maxEntries, f, c))
    ensures var h := History(code, key, calls);
            Logged(code, maxEntries, f, c).entries == Rotated(f.entries + [EntryAfter(code, key, h, c)], maxEntries)
  {
    hide Chain, History, EndOf, Rotated, Counted, CriticalAmong, Kept;
    var h := History(code, key, calls);
    var e := EntryAfter(code, key, h, c);
    CallsGrow(code, key, calls, c);
    EndGrows(f.entries, h, e);
    RotatedIsEnd(f.entries + [e], h + [e], maxEntries);
    KeptNext(maxEntries, |calls|);
  }

  /** A call on a log with room adds one entry; a call on a full one leaves the newer half. */
  lemma LogSize(code: Code, maxEntries: nat, key: Bytes, calls: seq<Call>, f: Fields, c: Call)
    requires Sound(code, maxEntries, key, calls, f)
    ensures var g, n := Logged(code, maxEntries, f, c), |f.entries|;
            && |g.entries| == (if n < maxEntries then n + 1 else (n + 2) / 2)
            && n <= Capacity(maxEntries) && EndOf(g.entries, History(code, key, calls + [c]))
  {
    hide Chain, History, EndOf, Rotated, Counted, CriticalAmong, Kept;
    LogKeepsSound(code, maxEntries, key, calls, f, c);
    KeptNext(maxEntries, |calls|);
    KeptBounds(maxEntries, |calls|);
  }

  lemma VerifiesEnd(code: Code, log: seq<Entry>, h: seq<Entry>)
    requires EndOf(log, h) && Verifies(code, h)
    ensures Verifies(code, log)
  {
    hide Follows;
    forall i | 1 <= i < |log|
      ensures Follows(code, log[i - 1].hmac, log[i])
    {
      var k := |h| - |log| + i;
      assert Follows(code, h[k - 1].hmac, h[k]);
    }
  }

  lemma RecordsEnd(log: seq<Entry>, h: seq<Entry>, calls: seq<Call>)
    requires EndOf(log, h) && RecordsFrom(h, calls, 0)
    ensures |log| <= |h| && RecordsFrom(log, calls, |h| - |log|)
  {
    hide Records;
    forall i: nat | i < |log|
      ensures Records(log[i], calls, |h| - |log| + i)
    {
      assert Records(h[|h| - |log| + i], calls, 0 + (|h| - |log| + i));
    }
  }

  /**
   * After every run: the log verifies, and records the last calls, in order, up to the newest: all of them, or at
   * least half a log.
   */
  lemma RunVerifies(code: Code, maxEntries: nat, key: Bytes, calls: seq<Call>, f: Fields)
    requires Sound(code, maxEntries, key, calls, f)
    ensures Verifies(code, f.entries) && |f.entries| <= Capacity(maxEntries)
    ensures |f.entries| >= if |calls| <= (maxEntries + 2) / 2 then |calls| else (maxEntries + 2) / 2
    ensures |f.entries| <= f.nextSeq == |calls| && RecordsFrom(f.entries, calls, f.nextSeq - |f.entries|)
    ensures f.criticalCount == CriticalAmong(calls)
  {
    hide Follows, Verifies, RecordsFrom, History, EndOf, CriticalAmong, LastKey, Capacity, Kept;
    HistoryIsChain(code, key, calls);
    KeptBounds(maxEntries, |calls|);
    VerifiesEnd(code, f.entries, History(code, key, calls));
    RecordsEnd(f.entries, History(code, key, calls), calls);
  }

  // ------------------------------------------------------------------------------------------
  // What a verifying chain protects
  // ------------------------------------------------------------------------------------------

  lemma {:induction false} LittleEndianInjective(x: nat, y: nat, n: nat)
    requires Shift(x, n) == 0 && Shift(y, n) == 0 && LittleEndian(x, n) == LittleEndian(y, n)
    ensures x == y
    decreases n
  {
    hide ByteOf, NatOf;
    if n > 0 {
      assert LittleEndian(x, n)[0] == LittleEndian(y, n)[0];
      assert LittleEndian(x, n)[1..] == LittleEndian(x / 256, n - 1);
      assert LittleEndian(y, n)[1..] == LittleEndian(y / 256, n - 1);
      NatOfByteOf(x % 256);
      NatOfByteOf(y % 256);
      ShiftFirst(x, n - 1);
      ShiftFirst(y, n - 1);
      LittleEndianInjective(x / 256, y / 256, n - 1);
    }
  }

  /** The message of an entry determines its sequence number, its time and the encoding of its event. */
  lemma MessageInjective(code: Code, a: Entry, b: Entry)
    requires a.sequence < TWO_64 && b.sequence < TWO_64
    requires Message(code, a.sequence, a.timestamp, a.event) == Message(code, b.sequence, b.timestamp, b.event)
    ensures a.sequence == b.sequence && a.timestamp == b.timestamp && code.encode(a.event) == code.encode(b.event)
  {
    hide LittleEndian;
    var m, n := Message(code, a.sequence, a.timestamp, a.event), Message(code, b.sequence, b.timestamp, b.event);
    assert m[..8] == LittleEndian(a.sequence, 8) && n[..8] == LittleEndian(b.sequence, 8);
    assert m[8..16] == LittleEndian(a.timestamp, 8) && n[8..16] == LittleEndian(b.timestamp, 8);
    assert m[16..] == code.encode(a.event) && n[16..] == code.encode(b.event);
    FitsIn64(a.sequence);
    FitsIn64(b.sequence);
    FitsIn64(a.timestamp);
    FitsIn64(b.timestamp);
    LittleEndianInjective(a.sequence, b.sequence, 8);
    LittleEndianInjective(a.timestamp, b.timestamp, 8);
  }

  /** The two entries say the same thing. */
  predicate SameContent(code: Code, a: Entry, b: Entry) {
    a.sequence == b.sequence && a.timestamp == b.timestamp && code.encode(a.event) == code.encode(b.event)
  }

  /** Every HMAC agrees, and everything it covers; the first entry's content and all severities are not covered. */
  predicate Agree(code: Code, a: seq<Entry>, b: seq<Entry>)
    requires |a| == |b|
  {
    && (forall i :: 0 <= i < |a| ==> a[i].hmac == b[i].hmac)
    && (forall i :: 1 <= i < |a| ==> SameContent(code, a[i], b[i]))
  }

  /** Position `i` shows two different inputs with the same HMAC. */
  predicate CollisionAt(code: Code, a: seq<Entry>, b: seq<Entry>, i: nat)
    requires 1 <= i < |a| && i < |b|
  {
    var m := Message(code, a[i].sequence, a[i].timestamp, a[i].event);
    var n := Message(code, b[i].sequence, b[i].timestamp, b[i].event);
    (a[i - 1].hmac, m) != (b[i - 1].hmac, n) && code.hmac(a[i - 1].hmac, m) == code.hmac(b[i - 1].hmac, n)
  }

  predicate InRange(log: seq<Entry>) {
    forall i :: 0 <= i < |log| ==> log[i].sequence < TWO_64
  }

  lemma FrontVerifies(code: Code, log: seq<Entry>, n: nat)
    requires Verifies(code, log) && n <= |log|
    ensures Verifies(code, log[..n])
  {
    hide Follows;
  }

  /** Two verifying logs of one length that end in the same HMAC agree, or show a collision of the HMAC. */
  lemma {:induction false} AgreeOrCollide(code: Code, a: seq<Entry>, b: seq<Entry>)
    requires |a| == |b| > 0 && InRange(a) && InRange(b) && Verifies(code, a) && Verifies(code, b)
    requires a[|a| - 1].hmac == b[|b| - 1].hmac
    ensures Agree(code, a, b) || exists i: nat :: 1 <= i < |a| && CollisionAt(code, a, b, i)
    decreases |a|
  {
    hide Message, SameContent;
    var n := |a| - 1;
    if n > 0 && !CollisionAt(code, a, b, n) {
      assert Follows(code, a[n - 1].hmac, a[n]) && Follows(code, b[n - 1].hmac, b[n]);
      assert a[n - 1].hmac == b[n - 1].hmac;
      SameMessage(code, a[n], b[n]);
      FrontVerifies(code, a, n);
      FrontVerifies(code, b, n);
      AgreeOrCollide(code, a[..n], b[..n]);
      AgreeGrows(code, a, b, n);
    }
  }

  lemma SameMessage(code: Code, a: Entry, b: Entry)
    requires a.sequence < TWO_64 && b.sequence < TWO_64
    requires Message(code, a.sequence, a.timestamp, a.event) == Message(code, b.sequence, b.timestamp, b.event)
    ensures SameContent(code, a, b)
  {
    MessageInjective(code, a, b);
  }

  lemma AgreeGrows(code: Code, a: seq<Entry>, b: seq<Entry>, n: nat)
    requires |a| == |b| == n + 1 && n > 0 && a[n].hmac == b[n].hmac && SameContent(code, a[n], b[n])
    ensures Agree(code, a[..n], b[..n]) ==> Agree(code, a, b)
    ensures forall i: nat :: 1 <= i < n && CollisionAt(code, a[..n], b[..n], i) ==> CollisionAt(code, a, b, i)
  {
    hide Message, SameContent;
    if Agree(code, a[..n], b[..n]) {
      forall i | 0 <= i < |a|
        ensures a[i].hmac == b[i].hmac && (i > 0 ==> SameContent(code, a[i], b[i]))
      {
        if i < n {
          assert a[..n][i].hmac == b[..n][i].hmac;
          assert i > 0 ==> SameContent(code, a[..n][i], b[..n][i]);
        }
      }
    }
  }

  /**
   * Tamper evidence, exactly: where no two different inputs at one position of the two logs have the same HMAC, what
   * may stand in for a verifying log with the same last HMAC is any log that agrees with it, and nothing else.
   */
  lemma TamperEvidentIff(code: Code, a: seq<Entry>, b: seq<Entry>)
    requires |a| == |b| > 0 && InRange(a) && InRange(b) && Verifies(code, a)
    requires forall i: nat :: 1 <= i < |a| ==> !CollisionAt(code, a, b, i)
    ensures Verifies(code, b) && b[|b| - 1].hmac == a[|a| - 1].hmac <==> Agree(code, a, b)
  {
    hide Message, Verifies, CollisionAt;
    if Verifies(code, b) && b[|b| - 1].hmac == a[|a| - 1].hmac {
      AgreeOrCollide(code, a, b);
    }
    if Agree(code, a, b) {
      AgreeVerifies(code, a, b);
    }
  }

  lemma FollowsSame(code: Code, key: Bytes, a: Entry, b: Entry)
    requires SameContent(code, a, b) && a.hmac == b.hmac && Follows(code, key, a)
    ensures Follows(code, key, b)
  {
    hide LittleEndian;
  }

  lemma AgreeVerifies(code: Code, a: seq<Entry>, b: seq<Entry>)
    requires |a| == |b| && Verifies(code, a) && Agree(code, a, b)
    ensures Verifies(code, b)
  {
    hide Follows, SameContent;
    forall i | 1 <= i < |b|
      ensures Follows(code, b[i - 1].hmac, b[i])
    {
      assert Follows(code, a[i - 1].hmac, a[i]) && SameContent(code, a[i], b[i]);
      assert a[i - 1].hmac == b[i - 1].hmac && a[i].hmac == b[i].hmac;
      FollowsSame(code, a[i - 1].hmac, a[i], b[i]);
    }
  }

  // ------------------------------------------------------------------------------------------
  // What a verifying chain does not show
  // ------------------------------------------------------------------------------------------

  /** The same contents with every HMAC computed afresh from the first one. */
  function Rechain(code: Code, log: seq<Entry>, first: Bytes): (r: seq<Entry>)
    ensures |r| == |log|
  {
    if log == [] then []
    else
      var n := |log| - 1;
      var front, e := Rechain(code, log[..n], first), log[n];
      front + [e.(hmac := if n == 0 then first
                          else Chain(code, front[n - 1].hmac, e.sequence, e.timestamp, e.event))]
  }

  /** The two logs have the same entries but for the HMACs. */
  predicate SameEntries(a: seq<Entry>, b: seq<Entry>) {
    |a| == |b| && forall i :: 0 <= i < |a| ==> a[i] == b[i].(hmac := a[i].hmac)
  }

  /**
   * For every contents and every first HMAC there is exactly one log that verifies: verification alone vouches
   * for no entry, only a last HMAC kept elsewhere does.
   */
  lemma {:induction false} VerifiesIffRechained(code: Code, log: seq<Entry>, first: Bytes, b: seq<Entry>)
    requires SameEntries(b, log)
    ensures Verifies(code, b) && (b != [] ==> b[0].hmac == first) <==> b == Rechain(code, log, first)
  {
    hide Chain, Verifies;
    if log != [] {
      var n := |log| - 1;
      VerifiesIffRechained(code, log[..n], first, b[..n]);
      VerifiesOneMore(code, b);
      assert b == b[..n] + [b[n]];
      assert Rechain(code, log, first)[..n] == Rechain(code, log[..n], first);
    } else {
      assert Verifies(code, []) by { NothingToVerify(code); }
    }
  }

  lemma NothingToVerify(code: Code)
    ensures Verifies(code, [])
  {
  }

  lemma VerifiesOneMore(code: Code, log: seq<Entry>)
    requires log != []
    ensures var n := |log| - 1;
            Verifies(code, log) <==> Verifies(code, log[..n]) && (n > 0 ==> Follows(code, log[n - 1].hmac, log[n]))
  {
    hide Follows;
    var n := |log| - 1;
    if Verifies(code, log[..n]) && (n > 0 ==> Follows(code, log[n - 1].hmac, log[n])) {
      forall i | 1 <= i < |log|
        ensures Follows(code, log[i - 1].hmac, log[i])
      {
        assert i < n ==> Follows(code, log[..n][i - 1].hmac, log[..n][i]);
      }
    }
  }

  /** Any contents, given fresh HMACs, pass the verification. */
  lemma {:induction false} RechainedVerifies(code: Code, log: seq<Entry>, first: Bytes)
    ensures SameEntries(Rechain(code, log, first), log) && Verifies(code, Rechain(code, log, first))
  {
    hide Chain, Verifies;
    RechainKeepsEntries(code, log, first);
    VerifiesIffRechained(code, log, first, Rechain(code, log, first));
  }

  lemma {:induction false} RechainKeepsEntries(code: Code, log: seq<Entry>, first: Bytes)
    ensures SameEntries(Rechain(code, log, first), log)
  {
    hide Chain;
    if log != [] {
      RechainKeepsEntries(code, log[..|log| - 1], first);
    }
  }

  // ------------------------------------------------------------------------------------------
  // Deletion
  // ------------------------------------------------------------------------------------------

  /** The log without the entries from `i` up to but not including `j`. */
  function Without(log: seq<Entry>, i: nat, j: nat): seq<Entry>
    requires i <= j <= |log|
  {
    log[..i] + log[j..]
  }

  /** The key of entry `k` of the history. */
  function KeyOf(code: Code, key: Bytes, calls: seq<Call>, k: nat): Bytes
    requires k < |calls|
  {
    if k == 0 then key else History(code, key, calls)[k - 1].hmac
  }

  function MessageOf(code: Code, key: Bytes, calls: seq<Call>, k: nat): Bytes
    requires k < |calls|
  {
    var e := History(code, key, calls)[k];
    Message(code, e.sequence, e.timestamp, e.event)
  }

  /** Two different inputs with one HMAC. */
  predicate Collide(code: Code, k: Bytes, m: Bytes, k': Bytes, m': Bytes) {
    (k, m) != (k', m') && code.hmac(k, m) == code.hmac(k', m')
  }

  /** The HMACs of entries `i` and `j` of the history collide, or as keys they give entry `j + 1` the same HMAC. */
  predicate GapCollides(code: Code, key: Bytes, calls: seq<Call>, i: nat, j: nat)
    requires i < j && j + 1 < |calls|
  {
    var h, m := History(code, key, calls), MessageOf(code, key, calls, j + 1);
    || Collide(code, KeyOf(code, key, calls, i), MessageOf(code, key, calls, i),
               KeyOf(code, key, calls, j), MessageOf(code, key, calls, j))
    || Collide(code, h[i].hmac, m, h[j].hmac, m)
  }

  /**
   * Deleting entries from a log that the logger made goes unnoticed exactly if none remain on one side, that is, if
   * the oldest or the newest entries are dropped, or if the HMACs at the gap collide.
   */
  lemma DeletionDetectedIff(code: Code, key: Bytes, calls: seq<Call>, log: seq<Entry>, i: nat, j: nat)
    requires |calls| <= TWO_64 && EndOf(log, History(code, key, calls))
    requires i < j <= |log|
    ensures |log| <= |calls|
    ensures var d := |calls| - |log|;
            Verifies(code, Without(log, i, j)) <==>
              i == 0 || j == |log| || GapCollides(code, key, calls, d + i - 1, d + j - 1)
  {
    hide Message, Follows, History, GapCollides;
    var h := History(code, key, calls);
    HistoryIsChain(code, key, calls);
    VerifiesEnd(code, log, h);
    if i == 0 {
      VerifiesEnd(code, log[j..], log);
      assert Without(log, i, j) == log[j..];
    } else if j == |log| {
      FrontVerifies(code, log, i);
      assert Without(log, i, j) == log[..i];
    } else {
      InnerDeletion(code, key, calls, log, i, j);
    }
  }

  lemma InnerDeletion(code: Code, key: Bytes, calls: seq<Call>, log: seq<Entry>, i: nat, j: nat)
    requires |calls| <= TWO_64 && EndOf(log, History(code, key, calls)) && |log| <= |calls| && 0 < i < j < |log|
    ensures var d := |calls| - |log|;
            Verifies(code, Without(log, i, j)) <==> GapCollides(code, key, calls, d + i - 1, d + j - 1)
  {
    hide Follows, History, GapCollides, Verifies, Without;
    var h, d := History(code, key, calls), |calls| - |log|;
    HistoryIsChain(code, key, calls);
    VerifiesEnd(code, log, h);
    GapClosesIff(code, key, calls, d + i - 1, d + j - 1);
    assert log[i - 1] == h[d + i - 1] && log[j] == h[d + j];
    ClosesIff(code, log, i, j);
  }

  /** A verifying log verifies without some inner entries exactly if the one after them follows the one before. */
  lemma ClosesIff(code: Code, log: seq<Entry>, i: nat, j: nat)
    requires 0 < i < j < |log| && Verifies(code, log)
    ensures Verifies(code, Without(log, i, j)) <==> Follows(code, log[i - 1].hmac, log[j])
  {
    hide Follows;
    var w := Without(log, i, j);
    if Verifies(code, w) {
      assert Follows(code, w[i - 1].hmac, w[i]);
    }
    if Follows(code, log[i - 1].hmac, log[j]) {
      forall k | 1 <= k < |w|
        ensures Follows(code, w[k - 1].hmac, w[k])
      {
        if k < i {
          assert Follows(code, log[k - 1].hmac, log[k]);
        } else if k > i {
          assert Follows(code, log[j + (k - i) - 1].hmac, log[j + (k - i)]);
        }
      }
    }
  }

  lemma EntryHmac(code: Code, key: Bytes, calls: seq<Call>, k: nat)
    requires k < |calls|
    ensures var e := History(code, key, calls)[k];
            e.hmac == code.hmac(KeyOf(code, key, calls, k), MessageOf(code, key, calls, k)) && e.sequence == k
  {
    hide Message, History;
    HistoryIsChain(code, key, calls);
    var h := History(code, key, calls);
    assert Records(h[k], calls, 0 + k);
    assert Follows(code, KeyOf(code, key, calls, k), h[k]);
  }

  lemma MessagesDiffer(code: Code, key: Bytes, calls: seq<Call>, i: nat, j: nat)
    requires i < j < |calls| <= TWO_64
    ensures MessageOf(code, key, calls, i) != MessageOf(code, key, calls, j)
  {
    hide Message, History;
    EntryHmac(code, key, calls, i);
    EntryHmac(code, key, calls, j);
    var h := History(code, key, calls);
    HistoryIsChain(code, key, calls);
    assert Records(h[i], calls, 0 + i) && Records(h[j], calls, 0 + j);
    if MessageOf(code, key, calls, i) == MessageOf(code, key, calls, j) {
      MessageInjective(code, h[i], h[j]);
    }
  }

  /** The entry after `j` follows entry `i` exactly if the HMACs collide. */
  lemma GapClosesIff(code: Code, key: Bytes, calls: seq<Call>, i: nat, j: nat)
    requires i < j && j + 1 < |calls| <= TWO_64
    ensures var h := History(code, key, calls);
            Follows(code, h[i].hmac, h[j + 1]) <==> GapCollides(code, key, calls, i, j)
  {
    hide Message, History;
    EntryHmac(code, key, calls, i);
    EntryHmac(code, key, calls, j);
    EntryHmac(code, key, calls, j + 1);
    MessagesDiffer(code, key, calls, i, j);
  }

  // ------------------------------------------------------------------------------------------
  // The logger, in place
  // ------------------------------------------------------------------------------------------

  class Logger {
    const code: Code
    const maxEntries: nat
    var entries: seq<Entry>
    var chainKey: Bytes
    var nextSeq: nat
    var criticalCount: nat
    ghost const firstKey: Bytes
    ghost var calls: seq<Call>

    ghost predicate Valid()
      reads this
    {
      Sound(code, maxEntries, firstKey, calls, Fields(entries, chainKey, nextSeq, criticalCount))
    }

    constructor (code: Code, maxEntries: nat, randomKey: Bytes)
      ensures Valid() && calls == [] && entries == []
      ensures this.code == code && this.maxEntries == maxEntries && firstKey == randomKey
    {
      this.code, this.maxEntries := code, maxEntries;
      entries, chainKey, nextSeq, criticalCount := [], randomKey, 0, 0;
      firstKey, calls := randomKey, [];
    }

    method Log(now: U64, event: Event)
      requires Valid()
      modifies this
      ensures Valid() && calls == old(calls) + [Call(now, event)]
      ensures var h := History(code, firstKey, old(calls));
              entries == Rotated(old(entries) + [EntryAfter(code, firstKey, h, Call(now, event))], maxEntries)
      ensures |old(entries)| < maxEntries ==> |entries| == |old(entries)| + 1
      ensures |old(entries)| >= maxEntries ==> |entries| == (|old(entries)| + 2) / 2
      ensures |old(entries)| <= Capacity(maxEntries)
      ensures EndOf(entries, History(code, firstKey, calls))
    {
      hide Chain, Sound, Rotated, EndOf, History, Capacity;
      ghost var was := Fields(entries, chainKey, nextSeq, criticalCount);
      ghost var c := Call(now, event);
      LogKeepsSound(code, maxEntries, firstKey, calls, was, c);
      LogSize(code, maxEntries, firstKey, calls, was, c);
      var severity := SeverityOf(event);
      if severity == Critical || severity == Fatal {
        criticalCount := criticalCount + 1;
      }
      var hmac := Chain(code, chainKey, nextSeq, now, event);
      chainKey := hmac;
      entries := entries + [Entry(nextSeq, now, severity, event, hmac)];
      nextSeq := nextSeq + 1;
      Rotate();
      calls := calls + [c];
    }

    method Rotate()
      modifies this`entries
      ensures entries == Rotated(old(entries), maxEntries)
    {
      if |entries| > maxEntries {
        var keepFrom := |entries| / 2;
        entries := entries[keepFrom..];
      }
    }

    method VerifyChain() returns (ok: bool)
      ensures ok <==> Verifies(code, entries)
      ensures Valid() ==> ok
    {
      hide Chain, Sound;
      if Valid() {
        RunVerifies(code, maxEntries, firstKey, calls, Fields(entries, chainKey, nextSeq, criticalCount));
      }
      if |entries| < 2 {
        return true;
      }
      for i := 1 to |entries|
        invariant forall k :: 1 <= k < i ==> Follows(code, entries[k - 1].hmac, entries[k])
      {
        var prev, curr := entries[i - 1], entries[i];
        var expected := Chain(code, prev.hmac, curr.sequence, curr.timestamp, curr.event);
        if expected != curr.hmac {
          return false;
        }
      }
      ok := true;
    }

    method LastEntries(n: nat) returns (last: seq<Entry>)
      requires Valid()
      ensures |last| == (if n < |entries| then n else |entries|) && EndOf(last, History(code, firstKey, calls))
    {
      hide History;
      var start := if |entries| >= n then |entries| - n else 0;
      EndOfEnd(entries, History(code, firstKey, calls), start);
      last := entries[start..];
    }
  }
}
