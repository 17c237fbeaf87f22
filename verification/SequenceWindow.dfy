/**
 * The anti-replay window of `hidra_core/src/protocol.rs`: the highest sequence number accepted so far and a
 * bitmap of the 64 numbers up to it. It decides exactly as a plain set of accepted numbers would.
 */
module SequenceWindow {
  import opened Prelude

  datatype Reason = Duplicate | TooOld

  /** An unsigned 32-bit sequence number. */
  type Seq32 = n: int | 0 <= n < 0x1_0000_0000

  const WINDOW_SIZE: nat := 64

  /** A 64-bit word as its bits, lowest first. */
  type Word64 = w: seq<bool> | |w| == 64 witness seq(64, _ => false)

  const NO_BITS: Word64 := seq(64, _ => false)

  /** The word moved up by `n` bits; what leaves the top is lost. */
  function ShiftLeft(w: Word64, n: nat): Word64 {
    seq(64, (i: nat) requires i < 64 => if i < n then false else w[i - n])
  }

  // ------------------------------------------------------------------------------------------
  // The set the bitmap stands for
  // ------------------------------------------------------------------------------------------

  /** The bitmap and the maximum describe the accepted numbers. */
  ghost predicate Tracks(maxSeq: Seq32, window: Word64, seen: set<Seq32>) {
    && maxSeq in seen
    && (forall s :: s in seen ==> s <= maxSeq)
    && (forall age: nat :: age < 64 ==> (window[age] <==> age <= maxSeq && (maxSeq - age) in seen))
  }

  /** Some accepted number is 64 or more above `s`. */
  ghost predicate Behind(seen: set<Seq32>, s: Seq32) {
    exists m :: m in seen && s + WINDOW_SIZE <= m
  }

  /** What a receiver that remembers every accepted number would do. */
  ghost function Decide(seen: set<Seq32>, s: Seq32): Result<(), Reason> {
    if Behind(seen, s) then Err(TooOld)
    else if s in seen then Err(Duplicate)
    else Ok(())
  }

  ghost function After(seen: set<Seq32>, s: Seq32): set<Seq32> {
    if Decide(seen, s).Ok? then seen + {s} else seen
  }

  lemma FirstTracks(s: Seq32)
    ensures Tracks(s, NO_BITS[0 := true], {s})
  {
  }

  /** A new maximum less than 64 above the old one. */
  lemma ShiftTracks(maxSeq: Seq32, window: Word64, seen: set<Seq32>, s: Seq32)
    requires Tracks(maxSeq, window, seen) && maxSeq < s < maxSeq + WINDOW_SIZE
    ensures Tracks(s, ShiftLeft(window, s - maxSeq)[0 := true], seen + {s})
  {
    var shift := s - maxSeq;
    var now := ShiftLeft(window, shift)[0 := true];
    forall age: nat | age < 64
      ensures now[age] <==> age <= s && (s - age) in seen + {s}
    {
      if shift <= age {
        assert now[age] == window[age - shift];
      }
    }
  }

  /** A new maximum 64 or more above the old one. */
  lemma JumpTracks(maxSeq: Seq32, window: Word64, seen: set<Seq32>, s: Seq32)
    requires Tracks(maxSeq, window, seen) && maxSeq + WINDOW_SIZE <= s
    ensures Tracks(s, NO_BITS[0 := true], seen + {s})
  {
  }

  /** A number below the maximum, inside the window. */
  lemma MarkTracks(maxSeq: Seq32, window: Word64, seen: set<Seq32>, s: Seq32)
    requires Tracks(maxSeq, window, seen) && s < maxSeq < s + WINDOW_SIZE
    ensures Tracks(maxSeq, window[maxSeq - s := true], seen + {s})
    ensures s in seen <==> window[maxSeq - s]
  {
  }

  lemma BehindMax(maxSeq: Seq32, window: Word64, seen: set<Seq32>, s: Seq32)
    requires Tracks(maxSeq, window, seen)
    ensures Behind(seen, s) <==> s + WINDOW_SIZE <= maxSeq
    ensures s > maxSeq ==> s !in seen
    ensures maxSeq in seen
  {
  }

  class SequenceValidator {
    var maxSeq: Seq32
    var window: Word64
    var accepted: nat
    var rejected: nat
    var initialized: bool
    ghost var seen: set<Seq32>   // every number accepted since the last reset

    ghost predicate Valid()
      reads this
    {
      && accepted == |seen|
      && (if initialized then Tracks(maxSeq, window, seen) else seen == {})
    }

    constructor ()
      ensures Valid() && seen == {} && rejected == 0
    {
      maxSeq := 0;
      window := NO_BITS;
      accepted := 0;
      rejected := 0;
      initialized := false;
      seen := {};
    }

    method Validate(s: Seq32) returns (r: Result<(), Reason>)
      requires Valid()
      modifies this
      ensures Valid()
      ensures r == Decide(old(seen), s) && seen == After(old(seen), s)
      ensures accepted + rejected == old(accepted + rejected) + 1
    {
      hide Tracks, Behind;
      if !initialized {
        initialized := true;
        maxSeq := s;
        window := NO_BITS[0 := true];
        accepted := accepted + 1;
        FirstTracks(s);
        NobodyBehind(s);
        seen := {s};
        return Ok(());
      }
      BehindMax(maxSeq, window, seen, s);
      if s > maxSeq {
        var shift := s - maxSeq;
        if shift >= WINDOW_SIZE {
          JumpTracks(maxSeq, window, seen, s);
          window := NO_BITS[0 := true];
        } else {
          ShiftTracks(maxSeq, window, seen, s);
          window := ShiftLeft(window, shift)[0 := true];
        }
        maxSeq := s;
        accepted := accepted + 1;
        seen := seen + {s};
        r := Ok(());
      } else if s == maxSeq {
        rejected := rejected + 1;
        r := Err(Duplicate);
      } else {
        var age := maxSeq - s;
        if age >= WINDOW_SIZE {
          rejected := rejected + 1;
          return Err(TooOld);
        }
        MarkTracks(maxSeq, window, seen, s);
        if window[age] {
          rejected := rejected + 1;
          r := Err(Duplicate);
        } else {
          window := window[age := true];
          accepted := accepted + 1;
          seen := seen + {s};
          r := Ok(());
        }
      }
    }

    method Reset()
      modifies this
      ensures Valid() && seen == {} && rejected == 0
    {
      maxSeq := 0;
      window := NO_BITS;
      accepted := 0;
      rejected := 0;
      initialized := false;
      seen := {};
    }
  }

  lemma NobodyBehind(s: Seq32)
    ensures Decide({}, s) == Ok(())
  {
  }

  // ------------------------------------------------------------------------------------------
  // Runs between resets
  // ------------------------------------------------------------------------------------------

  ghost function Accepted(calls: seq<Seq32>): set<Seq32> {
    if calls == [] then {} else After(Accepted(calls[..|calls| - 1]), calls[|calls| - 1])
  }

  /** The answer to the call at position `i`. */
  ghost function Answer(calls: seq<Seq32>, i: nat): Result<(), Reason>
    requires i < |calls|
  {
    Decide(Accepted(calls[..i]), calls[i])
  }

  lemma {:induction false} AcceptedStays(calls: seq<Seq32>, i: nat, j: nat)
    requires i < j <= |calls| && Answer(calls, i).Ok?
    ensures calls[i] in Accepted(calls[..j])
  {
    assert calls[..j][..j - 1] == calls[..j - 1];
    if i + 1 < j {
      AcceptedStays(calls, i, j - 1);
    }
  }

  lemma {:induction false} AcceptedWasCalled(calls: seq<Seq32>, s: Seq32)
    requires s in Accepted(calls)
    ensures exists i :: 0 <= i < |calls| && calls[i] == s && Answer(calls, i).Ok?
  {
    var n := |calls| - 1;
    if s in Accepted(calls[..n]) {
      AcceptedWasCalled(calls[..n], s);
      var i :| 0 <= i < n && calls[..n][i] == s && Answer(calls[..n], i).Ok?;
      assert calls[..n][..i] == calls[..i];
      assert calls[i] == s && Answer(calls, i).Ok?;
    } else {
      assert calls[n] == s && Answer(calls, n).Ok?;
    }
  }

  /** Over any run of calls no number is accepted twice, and the accepted set is exactly what was answered Ok. */
  lemma NeverAcceptedTwice(calls: seq<Seq32>)
    ensures forall i, j :: 0 <= i < j < |calls| && Answer(calls, i).Ok? && Answer(calls, j).Ok? ==> calls[i] != calls[j]
    ensures forall s :: s in Accepted(calls) <==> exists i :: 0 <= i < |calls| && calls[i] == s && Answer(calls, i).Ok?
  {
    forall i, j | 0 <= i < j < |calls| && Answer(calls, i).Ok? && Answer(calls, j).Ok?
      ensures calls[i] != calls[j]
    {
      AcceptedStays(calls, i, j);
    }
    forall s
      ensures s in Accepted(calls) <==> exists i :: 0 <= i < |calls| && calls[i] == s && Answer(calls, i).Ok?
    {
      if s in Accepted(calls) {
        AcceptedWasCalled(calls, s);
      }
      if i :| 0 <= i < |calls| && calls[i] == s && Answer(calls, i).Ok? {
        AcceptedStays(calls, i, |calls|);
        assert calls[..|calls|] == calls;
      }
    }
  }

  /** Call `j` was accepted before call `i` with a number 64 or more above that of `i`. */
  ghost predicate FarAbove(calls: seq<Seq32>, j: nat, i: nat)
    requires j < i < |calls|
  {
    Answer(calls, j).Ok? && calls[i] as int + 64 <= calls[j] as int
  }

  /**
   * A number is accepted exactly if no call before it was accepted with the same number or with one that is 64 or
   * more above it.
   */
  lemma AcceptedIff(calls: seq<Seq32>, i: nat)
    requires i < |calls|
    ensures Answer(calls, i) == Err(TooOld) <==> exists j: nat :: j < i && FarAbove(calls, j, i)
    ensures Answer(calls, i).Ok? <==>
            forall j: nat :: j < i && Answer(calls, j).Ok? ==> calls[j] != calls[i] && !FarAbove(calls, j, i)
  {
    hide Decide, After, Answer;
    var seen, s := Accepted(calls[..i]), calls[i];
    forall m
      ensures m in seen <==> exists j: nat :: j < i && calls[j] == m && Answer(calls, j).Ok?
    {
      SeenIff(calls, i, m);
    }
    assert Answer(calls, i) == Decide(seen, s) by {
      AnswerIs(calls, i);
    }
    DecideIs(seen, s);
    if m :| m in seen && s as int + 64 <= m as int {
      var j: nat :| j < i && calls[j] == m && Answer(calls, j).Ok?;
      assert FarAbove(calls, j, i);
    }
    forall j: nat | j < i && Answer(calls, j).Ok?
      ensures calls[j] in seen
    {
    }
  }

  lemma AnswerIs(calls: seq<Seq32>, i: nat)
    requires i < |calls|
    ensures Answer(calls, i) == Decide(Accepted(calls[..i]), calls[i])
  {
  }

  lemma SeenIff(calls: seq<Seq32>, i: nat, m: Seq32)
    requires i <= |calls|
    ensures m in Accepted(calls[..i]) <==> exists j: nat :: j < i && calls[j] == m && Answer(calls, j).Ok?
  {
    hide Decide, After;
    forall j: nat | j < i
      ensures Answer(calls[..i], j) == Answer(calls, j)
    {
      assert calls[..i][..j] == calls[..j];
    }
    NeverAcceptedTwice(calls[..i]);
  }

  lemma DecideIs(seen: set<Seq32>, s: Seq32)
    ensures Decide(seen, s) == Err(TooOld) <==> exists m :: m in seen && s as int + 64 <= m as int
    ensures Decide(seen, s).Ok? <==> s !in seen && forall m :: m in seen ==> m as int < s as int + 64
  {
  }
}
