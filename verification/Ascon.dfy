/**
 * Ascon-128 encryption as `callwhite_mcu/src/spi_ascon.h` computes it, block by block over a state updated in
 * place, and as Ascon v1.2 (section 2.4) defines it, over the padded message. The source has no decryption;
 * the one of the standard is here to state what encryption keeps.
 */
module Ascon {
  import opened Prelude
  import opened AsconPermutation

  type Bytes = seq<bv8>

  // ------------------------------------------------------------------------------------------
  // Words and bytes, highest byte first
  // ------------------------------------------------------------------------------------------

  function Append(w: bv64, b: bv8): bv64 { (w << 8) | (b as bv64) }

  function LowByte(w: bv64): bv8 { (w & 0xFF) as bv8 }

  function Drop(w: bv64): bv64 { w >> 8 }

  predicate TopIsZero(w: bv64) { w & 0xFF00_0000_0000_0000 == 0 }

  function ByteXor(a: bv8, b: bv8): bv8 { a ^ b }

  function Load(b: Bytes): bv64 {
    if b == [] then 0 else Append(Load(b[..|b| - 1]), b[|b| - 1])
  }

  function StoreLow(w: bv64, n: nat): (b: Bytes)
    ensures |b| == n
    decreases n
  {
    if n == 0 then [] else StoreLow(Drop(w), n - 1) + [LowByte(w)]
  }

  function Store(w: bv64): (b: Bytes)
    ensures |b| == 8
  {
    StoreLow(w, 8)
  }

  function XorBytes(a: Bytes, b: Bytes): (c: Bytes)
    requires |a| == |b|
    ensures |c| == |a|
  {
    seq(|a|, i requires 0 <= i < |a| => ByteXor(a[i], b[i]))
  }

  /** A word whose bytes above the lowest `n` are zero. */
  predicate Fits(w: bv64, n: nat) {
    if n == 0 then w == 0 else Fits(Drop(w), n - 1)
  }

  lemma DropAppend(w: bv64, b: bv8)
    requires TopIsZero(w)
    ensures Drop(Append(w, b)) == w
  {
  }

  lemma LowAppend(w: bv64, b: bv8)
    ensures LowByte(Append(w, b)) == b
  {
  }

  lemma AppendBack(w: bv64)
    ensures Append(Drop(w), LowByte(w)) == w
  {
  }

  lemma DropXor(x: bv64, y: bv64)
    ensures Drop(Xor(x, y)) == Xor(Drop(x), Drop(y))
  {
  }

  lemma LowXor(x: bv64, y: bv64)
    ensures LowByte(Xor(x, y)) == ByteXor(LowByte(x), LowByte(y))
  {
  }

  lemma Fits7(w: bv64)
    requires Drop(Drop(Drop(Drop(Drop(Drop(Drop(w))))))) == 0
    ensures TopIsZero(w)
  {
  }

  lemma Fits8(w: bv64)
    ensures Drop(Drop(Drop(Drop(Drop(Drop(Drop(Drop(w)))))))) == 0
  {
  }

  lemma {:induction false} FitsMore(w: bv64, n: nat)
    requires Fits(w, n)
    ensures Fits(w, n + 1)
    decreases n
  {
    if n > 0 {
      FitsMore(Drop(w), n - 1);
    } else {
      assert Drop(0) == 0;
    }
  }

  lemma {:induction false} FitsUpTo(w: bv64, n: nat, m: nat)
    requires Fits(w, n) && n <= m
    ensures Fits(w, m)
    decreases m - n
  {
    if n < m {
      FitsMore(w, n);
      FitsUpTo(w, n + 1, m);
    }
  }

  lemma FitsTop(w: bv64)
    requires Fits(w, 7)
    ensures TopIsZero(w)
  {
    hide Drop, TopIsZero;
    var d1 := Drop(w);
    var d2 := Drop(d1);
    var d3 := Drop(d2);
    assert Fits(d3, 4) by { assert Fits(d1, 6); assert Fits(d2, 5); }
    var d4 := Drop(d3);
    var d5 := Drop(d4);
    var d6 := Drop(d5);
    assert Fits(d6, 1) by { assert Fits(d4, 3); assert Fits(d5, 2); }
    assert Fits(Drop(d6), 0);
    Fits7(w);
  }

  lemma AllFit(w: bv64)
    ensures Fits(w, 8)
  {
    hide Drop;
    Fits8(w);
    var d1 := Drop(w);
    var d2 := Drop(d1);
    var d3 := Drop(d2);
    var d4 := Drop(d3);
    var d5 := Drop(d4);
    var d6 := Drop(d5);
    var d7 := Drop(d6);
    assert Fits(d5, 3) by { assert Fits(Drop(d7), 0); assert Fits(d7, 1); assert Fits(d6, 2); }
    assert Fits(d2, 6) by { assert Fits(d4, 4); assert Fits(d3, 5); }
    assert Fits(d1, 7);
  }

  lemma {:induction false} LoadFits(b: Bytes)
    requires |b| <= 8
    ensures Fits(Load(b), |b|)
  {
    hide Append, Drop, TopIsZero;
    if b != [] {
      var init, last := b[..|b| - 1], b[|b| - 1];
      LoadFits(init);
      FitsUpTo(Load(init), |b| - 1, 7);
      FitsTop(Load(init));
      DropAppend(Load(init), last);
    }
  }

  lemma StoreAppend(w: bv64, b: bv8, n: nat)
    requires TopIsZero(w)
    ensures StoreLow(Append(w, b), n + 1) == StoreLow(w, n) + [b]
  {
    hide Append, Drop, LowByte, TopIsZero;
    DropAppend(w, b);
    LowAppend(w, b);
  }

  /** Storing what was loaded gives the bytes back. */
  lemma {:induction false} StoreLoad(b: Bytes)
    requires |b| <= 8
    ensures StoreLow(Load(b), |b|) == b
  {
    hide Append, StoreLow, TopIsZero;
    if b == [] {
      assert StoreLow(Load(b), 0) == [];
    } else {
      var init, last := b[..|b| - 1], b[|b| - 1];
      StoreLoad(init);
      LoadFits(init);
      FitsUpTo(Load(init), |b| - 1, 7);
      FitsTop(Load(init));
      StoreAppend(Load(init), last, |b| - 1);
      assert b == init + [last];
    }
  }

  /** Loading the stored low bytes gives the word back. */
  lemma {:induction false} LoadStore(w: bv64, n: nat)
    requires Fits(w, n)
    ensures Load(StoreLow(w, n)) == w
    decreases n
  {
    hide Append, Drop, LowByte, TopIsZero;
    if n > 0 {
      LoadStore(Drop(w), n - 1);
      AppendBack(w);
    }
  }

  /** `ascon_load64` undoes `ascon_store64`. */
  lemma LoadOfStore(w: bv64)
    ensures Load(Store(w)) == w
  {
    hide Load, StoreLow, Fits;
    AllFit(w);
    LoadStore(w, 8);
  }

  lemma {:induction false} StoreXor(x: bv64, y: bv64, n: nat)
    ensures StoreLow(Xor(x, y), n) == XorBytes(StoreLow(x, n), StoreLow(y, n))
    decreases n
  {
    hide Drop, LowByte, Xor, ByteXor;
    if n > 0 {
      StoreXor(Drop(x), Drop(y), n - 1);
      DropXor(x, y);
      LowXor(x, y);
    }
  }

  lemma StoreXorLoad(x: bv64, b: Bytes)
    requires |b| == 8
    ensures Store(Xor(x, Load(b))) == XorBytes(Store(x), b)
  {
    hide StoreLow, Load, Xor, ByteXor;
    StoreXor(x, Load(b), 8);
    StoreLoad(b);
  }

  // ------------------------------------------------------------------------------------------
  // Ascon-128 on values (Ascon v1.2, section 2.4)
  // ------------------------------------------------------------------------------------------

  const IV: bv64 := 0x80400c06_00000000

  /** The data, a one bit, and zeros up to a multiple of eight bytes. */
  function Pad(data: Bytes): (p: Bytes)
    ensures |p| % 8 == 0 && |p| == |data| - |data| % 8 + 8
  {
    data + [0x80] + seq(7 - |data| % 8, _ => 0)
  }

  function XorRate(s: State, w: bv64): State {
    s.(x0 := Xor(s.x0, w))
  }

  function Absorb(s: State, data: Bytes): State
    requires |data| % 8 == 0
  {
    if data == [] then s
    else Permute(XorRate(Absorb(s, data[..|data| - 8]), Load(data[|data| - 8..])), 6)
  }

  datatype Key = Key(k0: bv64, k1: bv64)

  function KeyOf(key: Bytes): Key
    requires |key| == 16
  {
    Key(Load(key[..8]), Load(key[8..]))
  }

  function Initial(k: Key, nonce: Bytes): State
    requires |nonce| == 16
  {
    var s := Permute(State(IV, k.k0, k.k1, Load(nonce[..8]), Load(nonce[8..])), 12);
    s.(x3 := Xor(s.x3, k.k0), x4 := Xor(s.x4, k.k1))
  }

  function AbsorbAd(s: State, ad: Bytes): State {
    if ad == [] then s else Absorb(s, Pad(ad))
  }

  /** The state in which the plaintext starts. */
  function Start(k: Key, nonce: Bytes, ad: Bytes): State
    requires |nonce| == 16
  {
    var s := AbsorbAd(Initial(k, nonce), ad);
    s.(x4 := Xor(s.x4, 1))
  }

  function CipherBlocks(s: State, p: Bytes): (c: Bytes)
    requires |p| % 8 == 0
    ensures |c| == |p|
  {
    if p == [] then []
    else
      var front, block := p[..|p| - 8], p[|p| - 8..];
      CipherBlocks(s, front) + Store(Xor(Absorb(s, front).x0, Load(block)))
  }

  function Cipher(s: State, pt: Bytes): (c: Bytes)
    ensures |c| == |pt|
  {
    CipherBlocks(s, Pad(pt))[..|pt|]
  }

  /** The state after the last plaintext block has been taken in. */
  function Final(s: State, pt: Bytes): State {
    var p := Pad(pt);
    XorRate(Absorb(s, p[..|p| - 8]), Load(p[|p| - 8..]))
  }

  function Tag(k: Key, s: State): (t: Bytes)
    ensures |t| == 16
  {
    var f := Permute(s.(x1 := Xor(s.x1, k.k0), x2 := Xor(s.x2, k.k1)), 12);
    Store(Xor(f.x3, k.k0)) + Store(Xor(f.x4, k.k1))
  }

  datatype Sealed = Sealed(ct: Bytes, tag: Bytes)

  function Encrypt(key: Bytes, nonce: Bytes, ad: Bytes, pt: Bytes): (r: Sealed)
    requires |key| == 16 && |nonce| == 16
    ensures |r.ct| == |pt| && |r.tag| == 16
  {
    var s := Start(KeyOf(key), nonce, ad);
    Sealed(Cipher(s, pt), Tag(KeyOf(key), Final(s, pt)))
  }

  // ------------------------------------------------------------------------------------------
  // Encryption as a byte stream: byte j of the ciphertext depends on plaintext byte j and the blocks before
  // ------------------------------------------------------------------------------------------

  /** The byte that hides byte `j`, which the complete blocks before it determine. */
  function StreamByte(s: State, before: Bytes): bv8 {
    Store(Absorb(s, before[..|before| - |before| % 8]).x0)[|before| % 8]
  }

  lemma {:induction false} CipherBlocksAt(s: State, p: Bytes, j: nat)
    requires |p| % 8 == 0 && j < |p|
    ensures CipherBlocks(s, p)[j] == ByteXor(StreamByte(s, p[..j]), p[j])
  {
    hide StreamByte, Absorb, CipherBlocks, Permute, XorRate, Load, Store, Xor, ByteXor;
    var n := |p| - 8;
    var front, block := p[..n], p[n..];
    AbsorbNext(s, front, block);
    assert front + block == p;
    if j < n {
      CipherBlocksAt(s, front, j);
      assert front[..j] == p[..j];
    } else {
      LastBlockAt(s, front, block, j - n);
      assert p[..j] == front + block[..j - n];
    }
  }

  lemma LastBlockAt(s: State, front: Bytes, block: Bytes, k: nat)
    requires |front| % 8 == 0 && |block| == 8 && k < 8
    ensures Store(Xor(Absorb(s, front).x0, Load(block)))[k] == ByteXor(StreamByte(s, front + block[..k]), block[k])
  {
    hide Absorb, Load, Store, Xor, ByteXor;
    StoreXorLoad(Absorb(s, front).x0, block);
    var before := front + block[..k];
    BlockStart(|front|, |before|);
    assert before[..|front|] == front;
  }

  lemma BlockStart(n: nat, j: nat)
    requires n % 8 == 0 && n <= j < n + 8
    ensures j - j % 8 == n && j % 8 == j - n
  {
  }

  lemma CipherAt(s: State, pt: Bytes, j: nat)
    requires j < |pt|
    ensures Cipher(s, pt)[j] == ByteXor(StreamByte(s, pt[..j]), pt[j])
  {
    hide StreamByte, CipherBlocks, ByteXor;
    CipherBlocksAt(s, Pad(pt), j);
    assert Pad(pt)[..j] == pt[..j];
  }

  lemma XorByteInjective(k: bv8, a: bv8, b: bv8)
    ensures ByteXor(k, a) == ByteXor(k, b) ==> a == b
  {
  }

  lemma XorByteTwice(k: bv8, a: bv8)
    ensures ByteXor(k, ByteXor(k, a)) == a
  {
  }

  /**
   * Encryption is online and injective: for any two plaintexts, of any lengths, the ciphertexts agree up to a
   * byte exactly if the plaintexts do.
   */
  lemma {:induction false} PrefixIff(s: State, p: Bytes, q: Bytes, n: nat)
    requires n <= |p| && n <= |q|
    ensures Cipher(s, p)[..n] == Cipher(s, q)[..n] <==> p[..n] == q[..n]
  {
    hide Cipher, StreamByte, ByteXor;
    if n > 0 {
      var m := n - 1;
      PrefixIff(s, p, q, m);
      CipherAt(s, p, m);
      CipherAt(s, q, m);
      XorByteInjective(StreamByte(s, p[..m]), p[m], q[m]);
      OneMoreByte(p, q, m);
      OneMoreByte(Cipher(s, p), Cipher(s, q), m);
    }
  }

  lemma OneMoreByte(a: Bytes, b: Bytes, m: nat)
    requires m < |a| && m < |b|
    ensures a[..m + 1] == b[..m + 1] <==> a[..m] == b[..m] && a[m] == b[m]
  {
    assert a[..m + 1] == a[..m] + [a[m]];
    assert b[..m + 1] == b[..m] + [b[m]];
    if a[..m + 1] == b[..m + 1] {
      assert a[..m] == a[..m + 1][..m] && a[m] == a[..m + 1][m];
      assert b[..m] == b[..m + 1][..m] && b[m] == b[..m + 1][m];
    }
  }

  /** With the same key, nonce and associated data, equal ciphertexts come from equal plaintexts. */
  lemma EncryptInjective(key: Bytes, nonce: Bytes, ad: Bytes, p: Bytes, q: Bytes)
    requires |key| == 16 && |nonce| == 16
    requires Encrypt(key, nonce, ad, p).ct == Encrypt(key, nonce, ad, q).ct
    ensures p == q && Encrypt(key, nonce, ad, p).tag == Encrypt(key, nonce, ad, q).tag
  {
    hide Cipher, Start, Tag, Final;
    var s := Start(KeyOf(key), nonce, ad);
    PrefixIff(s, p, q, |p|);
    assert Cipher(s, p)[..|p|] == Cipher(s, p) && Cipher(s, q)[..|q|] == Cipher(s, q);
    assert p[..|p|] == p && q[..|q|] == q;
  }

  // ------------------------------------------------------------------------------------------
  // Decryption undoes encryption, and accepts nothing else
  // ------------------------------------------------------------------------------------------

  function Plain(s: State, ct: Bytes): (p: Bytes)
    ensures |p| == |ct|
  {
    if ct == [] then []
    else
      var before := Plain(s, ct[..|ct| - 1]);
      before + [ByteXor(StreamByte(s, before), ct[|ct| - 1])]
  }

  function Decrypt(key: Bytes, nonce: Bytes, ad: Bytes, c: Sealed): Option<Bytes>
    requires |key| == 16 && |nonce| == 16
  {
    var s := Start(KeyOf(key), nonce, ad);
    var p := Plain(s, c.ct);
    if Tag(KeyOf(key), Final(s, p)) == c.tag then Some(p) else None
  }

  lemma {:induction false} PlainOfFront(s: State, pt: Bytes, n: nat)
    requires n <= |pt|
    ensures Plain(s, Cipher(s, pt)[..n]) == pt[..n]
  {
    hide Cipher, StreamByte, ByteXor;
    if n > 0 {
      var c, m := Cipher(s, pt), n - 1;
      PlainOfFront(s, pt, m);
      assert c[..n][..m] == c[..m];
      CipherAt(s, pt, m);
      XorByteTwice(StreamByte(s, pt[..m]), pt[m]);
      assert pt[..n] == pt[..m] + [pt[m]];
    }
  }

  lemma PlainCipher(s: State, pt: Bytes)
    ensures Plain(s, Cipher(s, pt)) == pt
  {
    hide Cipher, Plain;
    PlainOfFront(s, pt, |pt|);
    assert Cipher(s, pt)[..|pt|] == Cipher(s, pt) && pt[..|pt|] == pt;
  }

  lemma {:induction false} CipherOfFront(s: State, ct: Bytes, n: nat)
    requires n <= |ct|
    ensures Plain(s, ct)[..n] == Plain(s, ct[..n])
    ensures Cipher(s, Plain(s, ct))[..n] == ct[..n]
    decreases n
  {
    hide Cipher, StreamByte, ByteXor;
    PlainPrefix(s, ct, n);
    if n > 0 {
      var p, m := Plain(s, ct), n - 1;
      CipherOfFront(s, ct, m);
      CipherAt(s, p, m);
      assert p[m] == p[..n][m];
      assert ct[..n][..m] == ct[..m];
      assert p[m] == ByteXor(StreamByte(s, p[..m]), ct[m]);
      XorByteTwice(StreamByte(s, p[..m]), ct[m]);
      OneMoreByte(Cipher(s, p), ct, m);
    }
  }

  lemma {:induction false} PlainPrefix(s: State, ct: Bytes, n: nat)
    requires n <= |ct|
    ensures Plain(s, ct)[..n] == Plain(s, ct[..n])
    decreases |ct|
  {
    hide StreamByte, ByteXor;
    if n < |ct| {
      var front := ct[..|ct| - 1];
      PlainPrefix(s, front, n);
      assert front[..n] == ct[..n];
      assert Plain(s, ct)[..n] == Plain(s, front)[..n];
    } else {
      assert ct[..n] == ct;
    }
  }

  lemma CipherPlain(s: State, ct: Bytes)
    ensures Cipher(s, Plain(s, ct)) == ct
  {
    hide Cipher, Plain;
    CipherOfFront(s, ct, |ct|);
    assert Cipher(s, Plain(s, ct))[..|ct|] == Cipher(s, Plain(s, ct)) && ct[..|ct|] == ct;
  }

  /** Decryption returns a plaintext exactly for what encryption made of it. */
  lemma DecryptIff(key: Bytes, nonce: Bytes, ad: Bytes, c: Sealed, pt: Bytes)
    requires |key| == 16 && |nonce| == 16
    ensures Decrypt(key, nonce, ad, c) == Some(pt) <==> c == Encrypt(key, nonce, ad, pt)
  {
    hide Cipher, Plain, Start, Tag, Final;
    var s := Start(KeyOf(key), nonce, ad);
    PlainCipher(s, pt);
    CipherPlain(s, c.ct);
  }

  // ------------------------------------------------------------------------------------------
  // Different nonces lead to different states
  // ------------------------------------------------------------------------------------------

  lemma {:induction false} AbsorbInjective(s: State, t: State, data: Bytes)
    requires |data| % 8 == 0 && Absorb(s, data) == Absorb(t, data)
    ensures s == t
  {
    hide Permute, Load, Xor;
    if data != [] {
      var front, w := data[..|data| - 8], Load(data[|data| - 8..]);
      var p, q := Absorb(s, front), Absorb(t, front);
      PermuteInjective(XorRate(p, w), XorRate(q, w), 6);
      XorInjective(p.x0, q.x0, w);
      AbsorbInjective(s, t, front);
    }
  }

  lemma LoadInjective(a: Bytes, b: Bytes)
    requires |a| == |b| <= 8 && Load(a) == Load(b)
    ensures a == b
  {
    StoreLoad(a);
    StoreLoad(b);
  }

  lemma InitialInjective(k: Key, m: Bytes, n: Bytes)
    requires |m| == |n| == 16 && Initial(k, m) == Initial(k, n)
    ensures m == n
  {
    hide Permute, Load, Xor;
    var s := Permute(State(IV, k.k0, k.k1, Load(m[..8]), Load(m[8..])), 12);
    var t := Permute(State(IV, k.k0, k.k1, Load(n[..8]), Load(n[8..])), 12);
    XorInjective(s.x3, t.x3, k.k0);
    XorInjective(s.x4, t.x4, k.k1);
    PermuteInjective(State(IV, k.k0, k.k1, Load(m[..8]), Load(m[8..])),
                     State(IV, k.k0, k.k1, Load(n[..8]), Load(n[8..])), 12);
    LoadInjective(m[..8], n[..8]);
    LoadInjective(m[8..], n[8..]);
    assert m == m[..8] + m[8..] && n == n[..8] + n[8..];
  }

  /** Under one key and the same associated data, the plaintext starts in the same state only for the same nonce. */
  lemma StartInjective(k: Key, m: Bytes, n: Bytes, ad: Bytes)
    requires |m| == |n| == 16
    ensures Start(k, m, ad) == Start(k, n, ad) <==> m == n
  {
    hide Initial, Absorb, Pad, Xor;
    if Start(k, m, ad) == Start(k, n, ad) {
      var s, t := AbsorbAd(Initial(k, m), ad), AbsorbAd(Initial(k, n), ad);
      XorInjective(s.x4, t.x4, 1);
      if ad != [] {
        AbsorbInjective(Initial(k, m), Initial(k, n), Pad(ad));
      }
      InitialInjective(k, m, n);
    }
  }

  // ------------------------------------------------------------------------------------------
  // The encryption of the source, in place
  // ------------------------------------------------------------------------------------------

  /** `ascon_load64`. */
  method Load64(p: Bytes) returns (r: bv64)
    requires |p| == 8
    ensures r == Load(p)
  {
    hide Append;
    r := 0;
    for i := 0 to 8
      invariant r == Load(p[..i])
    {
      r := Append(r, p[i]);
      assert p[..i + 1][..i] == p[..i];
    }
    assert p[..8] == p;
  }

  /** `ascon_store64`, from the last byte to the first. */
  method Store64(p: array<bv8>, at: nat, w: bv64)
    requires at + 8 <= p.Length
    modifies p
    ensures p[at..at + 8] == Store(w)
    ensures forall k | 0 <= k < p.Length && !(at <= k < at + 8) :: p[k] == old(p[k])
  {
    hide Drop, LowByte, StoreLow;
    var x := w;
    var i := 8;
    assert p[at + 8..at + 8] == [];
    while i > 0
      invariant 0 <= i <= 8
      invariant StoreLow(x, i) + p[at + i..at + 8] == Store(w)
      invariant forall k | 0 <= k < p.Length && !(at <= k < at + 8) :: p[k] == old(p[k])
    {
      i := i - 1;
      ghost var tail := p[at + i + 1..at + 8];
      p[at + i] := LowByte(x);
      assert p[at + i..at + 8] == [LowByte(x)] + tail;
      StoreLowNext(x, i, tail);
      x := Drop(x);
    }
    StoreLowNothing(x, p[at..at + 8]);
  }

  lemma StoreLowNext(x: bv64, i: nat, tail: Bytes)
    ensures StoreLow(Drop(x), i) + ([LowByte(x)] + tail) == StoreLow(x, i + 1) + tail
  {
    hide Drop, LowByte;
  }

  lemma StoreLowNothing(x: bv64, tail: Bytes)
    ensures StoreLow(x, 0) + tail == tail
  {
  }

  lemma AbsorbNext(s: State, data: Bytes, block: Bytes)
    requires |data| % 8 == 0 && |block| == 8
    ensures Absorb(s, data + block) == Permute(XorRate(Absorb(s, data), Load(block)), 6)
    ensures CipherBlocks(s, data + block)
         == CipherBlocks(s, data) + Store(Xor(Absorb(s, data).x0, Load(block)))
  {
    hide Permute, Load, Xor, Store;
    assert (data + block)[..|data + block| - 8] == data;
    assert (data + block)[|data + block| - 8..] == block;
  }

  /** The block at `n`. */
  lemma AbsorbNextOf(s: State, data: Bytes, n: nat)
    requires n % 8 == 0 && n + 8 <= |data|
    ensures Absorb(s, data[..n + 8]) == Permute(XorRate(Absorb(s, data[..n]), Load(data[n..n + 8])), 6)
    ensures CipherBlocks(s, data[..n + 8])
         == CipherBlocks(s, data[..n]) + Store(Xor(Absorb(s, data[..n]).x0, Load(data[n..n + 8])))
  {
    hide Permute, Load, Xor, Store, Absorb, CipherBlocks;
    AbsorbNext(s, data[..n], data[n..n + 8]);
    assert data[..n] + data[n..n + 8] == data[..n + 8];
  }

  /** The last bytes, a one bit, and zeros: the block the source builds in `pad`. */
  method PadBlock(rest: Bytes) returns (pad: array<bv8>)
    requires |rest| < 8
    ensures fresh(pad) && pad.Length == 8 && pad[..] == Pad(rest)
  {
    pad := new bv8[8](_ => 0);
    for i := 0 to |rest|
      invariant pad[..i] == rest[..i] && forall k | i <= k < 8 :: pad[k] == 0
    {
      pad[i] := rest[i];
    }
    pad[|rest|] := 0x80;
  }

  lemma PadParts(data: Bytes, n: nat)
    requires n % 8 == 0 && n <= |data| < n + 8
    ensures Pad(data) == data[..n] + Pad(data[n..]) && |Pad(data)| == n + 8
  {
    BlockStart(n, |data|);
  }

  /** Takes in one block in place. */
  method AbsorbBlock(s: AsconState, block: Bytes)
    requires s.x.Length == 5 && |block| == 8
    modifies s.x
    ensures s.View() == Permute(XorRate(old(s.View()), Load(block)), 6)
  {
    hide Permute, Load, Xor;
    var w := Load64(block);
    s.x[0] := Xor(s.x[0], w);
    s.PermuteInPlace(6);
  }

  /** All complete blocks; `n` bytes of data are taken in. */
  method AbsorbBlocks(s: AsconState, data: Bytes) returns (n: nat)
    requires s.x.Length == 5
    modifies s.x
    ensures n % 8 == 0 && n <= |data| < n + 8
    ensures s.View() == Absorb(old(s.View()), data[..n])
  {
    hide Permute, Load, Absorb, Xor, XorRate, Store, CipherBlocks;
    ghost var was := s.View();
    n := 0;
    AbsorbNothing(was);
    assert data[..0] == [];
    while n + 8 <= |data|
      invariant n <= |data| && n % 8 == 0
      invariant s.View() == Absorb(was, data[..n])
    {
      AbsorbNextOf(was, data, n);
      AbsorbBlock(s, data[n..n + 8]);
      n := n + 8;
    }
  }

  method AbsorbData(s: AsconState, ad: Bytes)
    requires s.x.Length == 5
    modifies s.x
    ensures s.View() == AbsorbAd(old(s.View()), ad)
  {
    hide Permute, Load, Absorb, Pad, XorRate;
    ghost var was := s.View();
    if |ad| > 0 {
      var n := AbsorbBlocks(s, ad);
      var pad := PadBlock(ad[n..]);
      PadParts(ad, n);
      AbsorbNext(was, ad[..n], Pad(ad[n..]));
      AbsorbBlock(s, pad[..]);
    }
  }

  lemma AbsorbNothing(s: State)
    ensures Absorb(s, []) == s && CipherBlocks(s, []) == []
  {
  }

  method Initialize(s: AsconState, k: Key, nonce: Bytes)
    requires s.x.Length == 5 && |nonce| == 16
    modifies s.x
    ensures s.View() == Initial(k, nonce)
  {
    hide Permute, Load, Xor;
    var n0 := Load64(nonce[..8]);
    var n1 := Load64(nonce[8..]);
    s.x[0], s.x[1], s.x[2], s.x[3], s.x[4] := IV, k.k0, k.k1, n0, n1;
    s.PermuteInPlace(12);
    s.x[3] := Xor(s.x[3], k.k0);
    s.x[4] := Xor(s.x[4], k.k1);
  }

  /** Takes in one plaintext block in place and writes its ciphertext block. */
  method EncryptBlock(s: AsconState, block: Bytes, ct: array<bv8>, at: nat)
    requires s.x.Length == 5 && |block| == 8 && at + 8 <= ct.Length
    modifies s.x, ct
    ensures s.View() == Permute(XorRate(old(s.View()), Load(block)), 6)
    ensures ct[at..at + 8] == Store(Xor(old(s.View()).x0, Load(block)))
    ensures forall k | 0 <= k < ct.Length && !(at <= k < at + 8) :: ct[k] == old(ct[k])
  {
    hide Permute, Load, Xor, Store;
    var w := Load64(block);
    s.x[0] := Xor(s.x[0], w);
    Store64(ct, at, s.x[0]);
    s.PermuteInPlace(6);
  }

  /** The last, padded block: as many ciphertext bytes as there is plaintext, and no permutation. */
  method EncryptLast(s: AsconState, rest: Bytes, ct: array<bv8>, at: nat)
    requires s.x.Length == 5 && |rest| < 8 && at + |rest| <= ct.Length
    modifies s.x, ct
    ensures s.View() == XorRate(old(s.View()), Load(Pad(rest)))
    ensures ct[at..at + |rest|] == Store(Xor(old(s.View()).x0, Load(Pad(rest))))[..|rest|]
    ensures forall k | 0 <= k < ct.Length && !(at <= k < at + |rest|) :: ct[k] == old(ct[k])
  {
    hide Load, Xor, Store, Pad;
    var pad := PadBlock(rest);
    var w := Load64(pad[..]);
    s.x[0] := Xor(s.x[0], w);
    Store64(pad, 0, s.x[0]);
    assert pad[0..8] == pad[..];
    ghost var c := pad[..];
    ghost var t := s.View();
    for i := 0 to |rest|
      invariant s.View() == t && pad[..] == c && ct[at..at + i] == c[..i]
      invariant forall k | 0 <= k < ct.Length && !(at <= k < at + i) :: ct[k] == old(ct[k])
    {
      ct[at + i] := pad[i];
    }
  }

  lemma CipherParts(s: State, pt: Bytes, n: nat)
    requires n % 8 == 0 && n <= |pt| < n + 8
    ensures var t, pad := Absorb(s, pt[..n]), Pad(pt[n..]);
            && |pad| == 8
            && Cipher(s, pt) == CipherBlocks(s, pt[..n]) + Store(Xor(t.x0, Load(pad)))[..|pt| - n]
            && Final(s, pt) == XorRate(t, Load(pad))
  {
    hide Absorb, Load, Xor, Store, CipherBlocks, Pad, Permute;
    var pad := Pad(pt[n..]);
    PadParts(pt, n);
    AbsorbNext(s, pt[..n], pad);
    var p := pt[..n] + pad;
    assert p[..|p| - 8] == pt[..n] && p[|p| - 8..] == pad;
  }

  /** All complete blocks; `n` bytes of plaintext are taken in. */
  method EncryptBlocks(s: AsconState, pt: Bytes, ct: array<bv8>, at: nat) returns (n: nat)
    requires s.x.Length == 5 && at + |pt| <= ct.Length
    modifies s.x, ct
    ensures n % 8 == 0 && n <= |pt| < n + 8
    ensures s.View() == Absorb(old(s.View()), pt[..n])
    ensures ct[at..at + n] == CipherBlocks(old(s.View()), pt[..n])
    ensures forall k | 0 <= k < ct.Length && !(at <= k < at + n) :: ct[k] == old(ct[k])
  {
    hide Permute, Load, Absorb, Xor, Store, CipherBlocks;
    ghost var was := s.View();
    n := 0;
    AbsorbNothing(was);
    assert pt[..0] == [];
    while n + 8 <= |pt|
      invariant n <= |pt| && n % 8 == 0
      invariant s.View() == Absorb(was, pt[..n])
      invariant ct[at..at + n] == CipherBlocks(was, pt[..n])
      invariant forall k | 0 <= k < ct.Length && !(at <= k < at + n) :: ct[k] == old(ct[k])
    {
      ghost var front := ct[at..at + n];
      AbsorbNextOf(was, pt, n);
      EncryptBlock(s, pt[n..n + 8], ct, at + n);
      assert ct[at..at + (n + 8)] == front + ct[at + n..at + n + 8];
      n := n + 8;
    }
  }

  method EncryptData(s: AsconState, pt: Bytes, ct: array<bv8>, at: nat)
    requires s.x.Length == 5 && at + |pt| <= ct.Length
    modifies s.x, ct
    ensures s.View() == Final(old(s.View()), pt)
    ensures ct[at..at + |pt|] == Cipher(old(s.View()), pt)
    ensures forall k | 0 <= k < ct.Length && !(at <= k < at + |pt|) :: ct[k] == old(ct[k])
  {
    hide Permute, Load, Absorb, Pad, Xor, Store, CipherBlocks, Cipher, Final;
    ghost var was := s.View();
    var n := EncryptBlocks(s, pt, ct, at);
    ghost var front := ct[at..at + n];
    CipherParts(was, pt, n);
    EncryptLast(s, pt[n..], ct, at + n);
    assert ct[at..at + n] == front;
    assert ct[at..at + |pt|] == ct[at..at + n] + ct[at + n..at + |pt|];
  }

  method Finalize(s: AsconState, k: Key, tag: array<bv8>)
    requires s.x.Length == 5 && tag.Length == 16
    modifies s.x, tag
    ensures tag[..] == Tag(k, old(s.View()))
  {
    hide Permute, Xor, Store;
    s.x[1] := Xor(s.x[1], k.k0);
    s.x[2] := Xor(s.x[2], k.k1);
    s.PermuteInPlace(12);
    s.x[3] := Xor(s.x[3], k.k0);
    s.x[4] := Xor(s.x[4], k.k1);
    Store64(tag, 0, s.x[3]);
    ghost var first := tag[0..8];
    Store64(tag, 8, s.x[4]);
    assert tag[..] == tag[0..8] + tag[8..16];
    assert tag[0..8] == first;
  }

  /** Domain separation between associated data and plaintext. */
  method Separate(s: AsconState)
    requires s.x.Length == 5
    modifies s.x
    ensures s.View() == old(s.View()).(x4 := Xor(old(s.View()).x4, 1))
  {
    hide Xor;
    s.x[4] := Xor(s.x[4], 1);
  }

  /** `ascon128_encrypt`: the ciphertext goes to `ct` from position `at` on. */
  method Encrypt128(key: Bytes, nonce: Bytes, ad: Bytes, pt: Bytes, ct: array<bv8>, at: nat, tag: array<bv8>)
    requires |key| == 16 && |nonce| == 16 && at + |pt| <= ct.Length && tag.Length == 16 && tag != ct
    modifies ct, tag
    ensures Sealed(ct[at..at + |pt|], tag[..]) == Encrypt(key, nonce, ad, pt)
    ensures forall k | 0 <= k < ct.Length && !(at <= k < at + |pt|) :: ct[k] == old(ct[k])
  {
    hide Initial, AbsorbAd, Cipher, Final, Tag, Load, Xor;
    var s := new AsconState();
    var k0 := Load64(key[..8]);
    var k1 := Load64(key[8..]);
    Initialize(s, Key(k0, k1), nonce);
    AbsorbData(s, ad);
    Separate(s);
    EncryptData(s, pt, ct, at);
    Finalize(s, Key(k0, k1), tag);
  }
}
