/**
 * The examples of FIPS 180-4 worked through the model: the one-block message "abc" and the two-block message of 56
 * bytes. Every line is one round or one word of the message schedule, as the tables of the standard list them.
 */
module Sha256Vectors {
  import opened Octets
  import opened Sha256
  import opened Sha256Constants

  // ------------------------------------------------------------------------------------------
  // One round, sixteen words of the schedule
  // ------------------------------------------------------------------------------------------

  /** Round `i` gives a new `a` and a new `e`; the other working variables move along. */
  lemma Turn(u: Work, b: Bytes, i: nat, v: Work, k: bv32, w: bv32, a: bv32, e: bv32) returns (r: Work)
    requires |b| == 64 && i < 64 && Rounds(u, b, i) == v && RoundConstant(i) == k && Schedule(b, i) == w
    requires Round(v, k, w) == Work(a, v.a, v.b, v.c, e, v.e, v.f, v.g)
    ensures r == Work(a, v.a, v.b, v.c, e, v.e, v.f, v.g) == Rounds(u, b, i + 1)
  {
    r := Round(v, k, w);
  }

  /** Sixteen words of the schedule, from word `i` on. */
  ghost predicate Sixteen(b: Bytes, i: nat,
      w0: bv32, w1: bv32, w2: bv32, w3: bv32, w4: bv32, w5: bv32, w6: bv32, w7: bv32,
      w8: bv32, w9: bv32, w10: bv32, w11: bv32, w12: bv32, w13: bv32, w14: bv32, w15: bv32)
    requires |b| == 64
  {
    && Schedule(b, i + 0) == w0 && Schedule(b, i + 1) == w1
    && Schedule(b, i + 2) == w2 && Schedule(b, i + 3) == w3
    && Schedule(b, i + 4) == w4 && Schedule(b, i + 5) == w5
    && Schedule(b, i + 6) == w6 && Schedule(b, i + 7) == w7
    && Schedule(b, i + 8) == w8 && Schedule(b, i + 9) == w9
    && Schedule(b, i + 10) == w10 && Schedule(b, i + 11) == w11
    && Schedule(b, i + 12) == w12 && Schedule(b, i + 13) == w13
    && Schedule(b, i + 14) == w14 && Schedule(b, i + 15) == w15
  }

  lemma NextWord(b: Bytes, i: nat, w0: bv32, w1: bv32, w9: bv32, w14: bv32)
    requires |b| == 64
    requires Schedule(b, i) == w0 && Schedule(b, i + 1) == w1 && Schedule(b, i + 9) == w9 && Schedule(b, i + 14) == w14
    ensures Schedule(b, i + 16) == Mix(w14, w9, w1, w0)
  {
    hide Mix, Schedule;
    ScheduleNext(b, i + 16);
  }

  /** The next sixteen words come from the sixteen before. */
  lemma NextSixteen(b: Bytes, i: nat,
      w0: bv32, w1: bv32, w2: bv32, w3: bv32, w4: bv32, w5: bv32, w6: bv32, w7: bv32,
      w8: bv32, w9: bv32, w10: bv32, w11: bv32, w12: bv32, w13: bv32, w14: bv32, w15: bv32,
      x0: bv32, x1: bv32, x2: bv32, x3: bv32, x4: bv32, x5: bv32, x6: bv32, x7: bv32,
      x8: bv32, x9: bv32, x10: bv32, x11: bv32, x12: bv32, x13: bv32, x14: bv32, x15: bv32)
    requires |b| == 64 && Sixteen(b, i, w0, w1, w2, w3, w4, w5, w6, w7, w8, w9, w10, w11, w12, w13, w14, w15)
    requires x0 == Mix(w14, w9, w1, w0) && x1 == Mix(w15, w10, w2, w1)
    requires x2 == Mix(x0, w11, w3, w2) && x3 == Mix(x1, w12, w4, w3)
    requires x4 == Mix(x2, w13, w5, w4) && x5 == Mix(x3, w14, w6, w5)
    requires x6 == Mix(x4, w15, w7, w6) && x7 == Mix(x5, x0, w8, w7)
    requires x8 == Mix(x6, x1, w9, w8) && x9 == Mix(x7, x2, w10, w9)
    requires x10 == Mix(x8, x3, w11, w10) && x11 == Mix(x9, x4, w12, w11)
    requires x12 == Mix(x10, x5, w13, w12) && x13 == Mix(x11, x6, w14, w13)
    requires x14 == Mix(x12, x7, w15, w14) && x15 == Mix(x13, x8, x0, w15)
    ensures Sixteen(b, i + 16, x0, x1, x2, x3, x4, x5, x6, x7, x8, x9, x10, x11, x12, x13, x14, x15)
  {
    hide Mix, Schedule;
    NextWord(b, i + 0, w0, w1, w9, w14);
    NextWord(b, i + 1, w1, w2, w10, w15);
    NextWord(b, i + 2, w2, w3, w11, x0);
    NextWord(b, i + 3, w3, w4, w12, x1);
    NextWord(b, i + 4, w4, w5, w13, x2);
    NextWord(b, i + 5, w5, w6, w14, x3);
    NextWord(b, i + 6, w6, w7, w15, x4);
    NextWord(b, i + 7, w7, w8, x0, x5);
    NextWord(b, i + 8, w8, w9, x1, x6);
    NextWord(b, i + 9, w9, w10, x2, x7);
    NextWord(b, i + 10, w10, w11, x3, x8);
    NextWord(b, i + 11, w11, w12, x4, x9);
    NextWord(b, i + 12, w12, w13, x5, x10);
    NextWord(b, i + 13, w13, w14, x6, x11);
    NextWord(b, i + 14, w14, w15, x7, x12);
    NextWord(b, i + 15, w15, x0, x8, x13);
  }

  // The block of "abc".

  lemma AbcWords(b: Bytes)
    requires |b| == 64 && Sixteen(b, 0,
      0x61626380, 0x00000000, 0x00000000, 0x00000000, 0x00000000, 0x00000000, 0x00000000, 0x00000000,
      0x00000000, 0x00000000, 0x00000000, 0x00000000, 0x00000000, 0x00000000, 0x00000000, 0x00000018)
    ensures Sixteen(b, 16,
      0x61626380, 0x000f0000, 0x7da86405, 0x600003c6, 0x3e9d7b78, 0x0183fc00, 0x12dcbfdb, 0xe2e2c38e,
      0xc8215c1a, 0xb73679a2, 0xe5bc3909, 0x32663c5b, 0x9d209d67, 0xec8726cb, 0x702138a4, 0xd3b7973b)
    ensures Sixteen(b, 32,
      0x93f5997f, 0x3b68ba73, 0xaff4ffc1, 0xf10a5c62, 0x0a8b3996, 0x72af830a, 0x9409e33e, 0x24641522,
      0x9f47bf94, 0xf0a64f5a, 0x3e246a79, 0x27333ba3, 0x0c4763f2, 0x840abf27, 0x7a290d5d, 0x065c43da)
    ensures Sixteen(b, 48,
      0xfb3e89cb, 0xcc7617db, 0xb9e66c34, 0xa9993667, 0x84badedd, 0xc21462bc, 0x1487472c, 0xb20f7a99,
      0xef57b9cd, 0xebe6b238, 0x9fe3095e, 0x78bc8d4b, 0xa43fcf15, 0x668b2ff8, 0xeeaba2cc, 0x12b1edeb)
  {
    hide Sixteen;
    NextSixteen(b, 0,
      0x61626380, 0x00000000, 0x00000000, 0x00000000, 0x00000000, 0x00000000, 0x00000000, 0x00000000,
      0x00000000, 0x00000000, 0x00000000, 0x00000000, 0x00000000, 0x00000000, 0x00000000, 0x00000018,
      0x61626380, 0x000f0000, 0x7da86405, 0x600003c6, 0x3e9d7b78, 0x0183fc00, 0x12dcbfdb, 0xe2e2c38e,
      0xc8215c1a, 0xb73679a2, 0xe5bc3909, 0x32663c5b, 0x9d209d67, 0xec8726cb, 0x702138a4, 0xd3b7973b);
    NextSixteen(b, 16,
      0x61626380, 0x000f0000, 0x7da86405, 0x600003c6, 0x3e9d7b78, 0x0183fc00, 0x12dcbfdb, 0xe2e2c38e,
      0xc8215c1a, 0xb73679a2, 0xe5bc3909, 0x32663c5b, 0x9d209d67, 0xec8726cb, 0x702138a4, 0xd3b7973b,
      0x93f5997f, 0x3b68ba73, 0xaff4ffc1, 0xf10a5c62, 0x0a8b3996, 0x72af830a, 0x9409e33e, 0x24641522,
      0x9f47bf94, 0xf0a64f5a, 0x3e246a79, 0x27333ba3, 0x0c4763f2, 0x840abf27, 0x7a290d5d, 0x065c43da);
    NextSixteen(b, 32,
      0x93f5997f, 0x3b68ba73, 0xaff4ffc1, 0xf10a5c62, 0x0a8b3996, 0x72af830a, 0x9409e33e, 0x24641522,
      0x9f47bf94, 0xf0a64f5a, 0x3e246a79, 0x27333ba3, 0x0c4763f2, 0x840abf27, 0x7a290d5d, 0x065c43da,
      0xfb3e89cb, 0xcc7617db, 0xb9e66c34, 0xa9993667, 0x84badedd, 0xc21462bc, 0x1487472c, 0xb20f7a99,
      0xef57b9cd, 0xebe6b238, 0x9fe3095e, 0x78bc8d4b, 0xa43fcf15, 0x668b2ff8, 0xeeaba2cc, 0x12b1edeb);
  }

  lemma AbcTurns0(u: Work, b: Bytes)
    requires |b| == 64 && Rounds(u, b, 0)
      == Work(0x6a09e667, 0xbb67ae85, 0x3c6ef372, 0xa54ff53a, 0x510e527f, 0x9b05688c, 0x1f83d9ab, 0x5be0cd19)
    requires Sixteen(b, 0,
      0x61626380, 0x00000000, 0x00000000, 0x00000000, 0x00000000, 0x00000000, 0x00000000, 0x00000000,
      0x00000000, 0x00000000, 0x00000000, 0x00000000, 0x00000000, 0x00000000, 0x00000000, 0x00000018)
    ensures Rounds(u, b, 16)
      == Work(0xb0fa238e, 0xc0645fde, 0xd932eb16, 0x87912990, 0x07590dcd, 0x0b92f20c, 0x745a48de, 0x1e578218)
  {
    hide Rounds, RoundConstant, Schedule;
    Constants0();
    Constants1();
    var v := Rounds(u, b, 0);
    v := Turn(u, b, 0, v, 0x428a2f98, 0x61626380, 0x5d6aebcd, 0xfa2a4622);
    v := Turn(u, b, 1, v, 0x71374491, 0x00000000, 0x5a6ad9ad, 0x78ce7989);
    v := Turn(u, b, 2, v, 0xb5c0fbcf, 0x00000000, 0xc8c347a7, 0xf92939eb);
    v := Turn(u, b, 3, v, 0xe9b5dba5, 0x00000000, 0xd550f666, 0x24e00850);
    v := Turn(u, b, 4, v, 0x3956c25b, 0x00000000, 0x04409a6a, 0x43ada245);
    v := Turn(u, b, 5, v, 0x59f111f1, 0x00000000, 0x2b4209f5, 0x714260ad);
    v := Turn(u, b, 6, v, 0x923f82a4, 0x00000000, 0xe5030380, 0x9b27a401);
    v := Turn(u, b, 7, v, 0xab1c5ed5, 0x00000000, 0x85a07b5f, 0x0c657a79);
    v := Turn(u, b, 8, v, 0xd807aa98, 0x00000000, 0x8e04ecb9, 0x32ca2d8c);
    v := Turn(u, b, 9, v, 0x12835b01, 0x00000000, 0x8c87346b, 0x1cc92596);
    v := Turn(u, b, 10, v, 0x243185be, 0x00000000, 0x4798a3f4, 0x436b23e8);
    v := Turn(u, b, 11, v, 0x550c7dc3, 0x00000000, 0xf71fc5a9, 0x816fd6e9);
    v := Turn(u, b, 12, v, 0x72be5d74, 0x00000000, 0x87912990, 0x1e578218);
    v := Turn(u, b, 13, v, 0x80deb1fe, 0x00000000, 0xd932eb16, 0x745a48de);
    v := Turn(u, b, 14, v, 0x9bdc06a7, 0x00000000, 0xc0645fde, 0x0b92f20c);
    v := Turn(u, b, 15, v, 0xc19bf174, 0x00000018, 0xb0fa238e, 0x07590dcd);
  }

  lemma AbcTurns1(u: Work, b: Bytes)
    requires |b| == 64 && Rounds(u, b, 16)
      == Work(0xb0fa238e, 0xc0645fde, 0xd932eb16, 0x87912990, 0x07590dcd, 0x0b92f20c, 0x745a48de, 0x1e578218)
    requires Sixteen(b, 16,
      0x61626380, 0x000f0000, 0x7da86405, 0x600003c6, 0x3e9d7b78, 0x0183fc00, 0x12dcbfdb, 0xe2e2c38e,
      0xc8215c1a, 0xb73679a2, 0xe5bc3909, 0x32663c5b, 0x9d209d67, 0xec8726cb, 0x702138a4, 0xd3b7973b)
    ensures Rounds(u, b, 32)
      == Work(0x73b33bf5, 0xea992a22, 0xa0060b30, 0x363482c9, 0xba591112, 0x0109ab3a, 0xade79437, 0x6112a3b7)
  {
    hide Rounds, RoundConstant, Schedule;
    Constants2();
    Constants3();
    var v := Rounds(u, b, 16);
    v := Turn(u, b, 16, v, 0xe49b69c1, 0x61626380, 0x21da9a9b, 0x8034229c);
    v := Turn(u, b, 17, v, 0xefbe4786, 0x000f0000, 0xc2fbd9d1, 0x846ee454);
    v := Turn(u, b, 18, v, 0x0fc19dc6, 0x7da86405, 0xfe777bbf, 0xcc899961);
    v := Turn(u, b, 19, v, 0x240ca1cc, 0x600003c6, 0xe1f20c33, 0xb0638179);
    v := Turn(u, b, 20, v, 0x2de92c6f, 0x3e9d7b78, 0x9dc68b63, 0x8ada8930);
    v := Turn(u, b, 21, v, 0x4a7484aa, 0x0183fc00, 0xc2606d6d, 0xe1257970);
    v := Turn(u, b, 22, v, 0x5cb0a9dc, 0x12dcbfdb, 0xa7a3623f, 0x49f5114a);
    v := Turn(u, b, 23, v, 0x76f988da, 0xe2e2c38e, 0xc5d53d8d, 0xaa47c347);
    v := Turn(u, b, 24, v, 0x983e5152, 0xc8215c1a, 0x1c2c2838, 0x2823ef91);
    v := Turn(u, b, 25, v, 0xa831c66d, 0xb73679a2, 0xcde8037d, 0x14383d8e);
    v := Turn(u, b, 26, v, 0xb00327c8, 0xe5bc3909, 0xb62ec4bc, 0xc74c6516);
    v := Turn(u, b, 27, v, 0xbf597fc7, 0x32663c5b, 0x77d37528, 0xedffbff8);
    v := Turn(u, b, 28, v, 0xc6e00bf3, 0x9d209d67, 0x363482c9, 0x6112a3b7);
    v := Turn(u, b, 29, v, 0xd5a79147, 0xec8726cb, 0xa0060b30, 0xade79437);
    v := Turn(u, b, 30, v, 0x06ca6351, 0x702138a4, 0xea992a22, 0x0109ab3a);
    v := Turn(u, b, 31, v, 0x14292967, 0xd3b7973b, 0x73b33bf5, 0xba591112);
  }

  lemma AbcTurns2(u: Work, b: Bytes)
    requires |b| == 64 && Rounds(u, b, 32)
      == Work(0x73b33bf5, 0xea992a22, 0xa0060b30, 0x363482c9, 0xba591112, 0x0109ab3a, 0xade79437, 0x6112a3b7)
    requires Sixteen(b, 32,
      0x93f5997f, 0x3b68ba73, 0xaff4ffc1, 0xf10a5c62, 0x0a8b3996, 0x72af830a, 0x9409e33e, 0x24641522,
      0x9f47bf94, 0xf0a64f5a, 0x3e246a79, 0x27333ba3, 0x0c4763f2, 0x840abf27, 0x7a290d5d, 0x065c43da)
    ensures Rounds(u, b, 48)
      == Work(0x4172328d, 0xa14c14b0, 0x72ab4b91, 0x26628815, 0xfecf0bc6, 0xd57b94a9, 0xb7755da1, 0xa80f11f0)
  {
    hide Rounds, RoundConstant, Schedule;
    Constants4();
    Constants5();
    var v := Rounds(u, b, 32);
    v := Turn(u, b, 32, v, 0x27b70a85, 0x93f5997f, 0x98e12507, 0x9cd9f5f6);
    v := Turn(u, b, 33, v, 0x2e1b2138, 0x3b68ba73, 0xfe604df5, 0x59249dd3);
    v := Turn(u, b, 34, v, 0x4d2c6dfc, 0xaff4ffc1, 0xa9a7738c, 0x085f3833);
    v := Turn(u, b, 35, v, 0x53380d13, 0xf10a5c62, 0x65a0cfe4, 0xf4b002d6);
    v := Turn(u, b, 36, v, 0x650a7354, 0x0a8b3996, 0x41a65cb1, 0x0772a26b);
    v := Turn(u, b, 37, v, 0x766a0abb, 0x72af830a, 0x34df1604, 0xa507a53d);
    v := Turn(u, b, 38, v, 0x81c2c92e, 0x9409e33e, 0x6dc57a8a, 0xf0781bc8);
    v := Turn(u, b, 39, v, 0x92722c85, 0x24641522, 0x79ea687a, 0x1efbc0a0);
    v := Turn(u, b, 40, v, 0xa2bfe8a1, 0x9f47bf94, 0xd6670766, 0x26352d63);
    v := Turn(u, b, 41, v, 0xa81a664b, 0xf0a64f5a, 0xdf46652f, 0x838b2711);
    v := Turn(u, b, 42, v, 0xc24b8b70, 0x3e246a79, 0x17aa0dfe, 0xdecd4715);
    v := Turn(u, b, 43, v, 0xc76c51a3, 0x27333ba3, 0x9d4baf93, 0xfda24c2e);
    v := Turn(u, b, 44, v, 0xd192e819, 0x0c4763f2, 0x26628815, 0xa80f11f0);
    v := Turn(u, b, 45, v, 0xd6990624, 0x840abf27, 0x72ab4b91, 0xb7755da1);
    v := Turn(u, b, 46, v, 0xf40e3585, 0x7a290d5d, 0xa14c14b0, 0xd57b94a9);
    v := Turn(u, b, 47, v, 0x106aa070, 0x065c43da, 0x4172328d, 0xfecf0bc6);
  }

  lemma AbcTurns3(u: Work, b: Bytes)
    requires |b| == 64 && Rounds(u, b, 48)
      == Work(0x4172328d, 0xa14c14b0, 0x72ab4b91, 0x26628815, 0xfecf0bc6, 0xd57b94a9, 0xb7755da1, 0xa80f11f0)
    requires Sixteen(b, 48,
      0xfb3e89cb, 0xcc7617db, 0xb9e66c34, 0xa9993667, 0x84badedd, 0xc21462bc, 0x1487472c, 0xb20f7a99,
      0xef57b9cd, 0xebe6b238, 0x9fe3095e, 0x78bc8d4b, 0xa43fcf15, 0x668b2ff8, 0xeeaba2cc, 0x12b1edeb)
    ensures Rounds(u, b, 64)
      == Work(0x506e3058, 0xd39a2165, 0x04d24d6c, 0xb85e2ce9, 0x5ef50f24, 0xfb121210, 0x948d25b6, 0x961f4894)
  {
    hide Rounds, RoundConstant, Schedule;
    Constants6();
    Constants7();
    var v := Rounds(u, b, 48);
    v := Turn(u, b, 48, v, 0x19a4c116, 0xfb3e89cb, 0x05757ceb, 0xbd714038);
    v := Turn(u, b, 49, v, 0x1e376c08, 0xcc7617db, 0xf11bfaa8, 0x6e5c390c);
    v := Turn(u, b, 50, v, 0x2748774c, 0xb9e66c34, 0x7a0508a1, 0x52f1ccf7);
    v := Turn(u, b, 51, v, 0x34b0bcb5, 0xa9993667, 0x886e7a22, 0x49231c1e);
    v := Turn(u, b, 52, v, 0x391c0cb3, 0x84badedd, 0x101fd28f, 0x529e7d00);
    v := Turn(u, b, 53, v, 0x4ed8aa4a, 0xc21462bc, 0xf5702fdb, 0x9f4787c3);
    v := Turn(u, b, 54, v, 0x5b9cca4f, 0x1487472c, 0x3ec45cdb, 0xe50e1b4f);
    v := Turn(u, b, 55, v, 0x682e6ff3, 0xb20f7a99, 0x38cc9913, 0x54cb266b);
    v := Turn(u, b, 56, v, 0x748f82ee, 0xef57b9cd, 0xfcd1887b, 0x9b5e906c);
    v := Turn(u, b, 57, v, 0x78a5636f, 0xebe6b238, 0xc062d46f, 0x7e44008e);
    v := Turn(u, b, 58, v, 0x84c87814, 0x9fe3095e, 0xffb70472, 0x6d83bfc6);
    v := Turn(u, b, 59, v, 0x8cc70208, 0x78bc8d4b, 0xb6ae8fff, 0xb21bad3d);
    v := Turn(u, b, 60, v, 0x90befffa, 0xa43fcf15, 0xb85e2ce9, 0x961f4894);
    v := Turn(u, b, 61, v, 0xa4506ceb, 0x668b2ff8, 0x04d24d6c, 0x948d25b6);
    v := Turn(u, b, 62, v, 0xbef9a3f7, 0xeeaba2cc, 0xd39a2165, 0xfb121210);
    v := Turn(u, b, 63, v, 0xc67178f2, 0x12b1edeb, 0x506e3058, 0x5ef50f24);
  }

  // The first block of the message of 56 bytes.

  lemma FirstWords(b: Bytes)
    requires |b| == 64 && Sixteen(b, 0,
      0x61626364, 0x62636465, 0x63646566, 0x64656667, 0x65666768, 0x66676869, 0x6768696a, 0x68696a6b,
      0x696a6b6c, 0x6a6b6c6d, 0x6b6c6d6e, 0x6c6d6e6f, 0x6d6e6f70, 0x6e6f7071, 0x80000000, 0x00000000)
    ensures Sixteen(b, 16,
      0xeb8012ad, 0xa7c3ae92, 0x76e93ba2, 0xba42e743, 0x92a92204, 0xd847e75e, 0x9e160036, 0xb280a7cb,
      0xddeb1516, 0xf36586f4, 0x969cd048, 0xe959d99d, 0x6accc0ec, 0xf54cb098, 0x2af1b2da, 0xee59c4c9)
    ensures Sixteen(b, 32,
      0xa835e16a, 0x1dff4429, 0xd6e15959, 0xc397cd6e, 0x6f1801ca, 0x21574205, 0x35ff7a84, 0x9743ee78,
      0xe44183e7, 0x0d09f00d, 0x9c89af54, 0x042d5bef, 0x71f134d0, 0x0f94f463, 0x7e49dc63, 0x6f65c997)
    ensures Sixteen(b, 48,
      0x0b706583, 0x179312ca, 0x503054e9, 0xba125c39, 0x7e9392c9, 0xd5cbaa1e, 0x78e0585d, 0xf6e7611c,
      0x8ac830ce, 0x8b47a303, 0xfd6e627f, 0x8c6e2c6a, 0x4001adf1, 0x1a3dd097, 0xa9df6f62, 0x6aa60a39)
  {
    hide Sixteen;
    NextSixteen(b, 0,
      0x61626364, 0x62636465, 0x63646566, 0x64656667, 0x65666768, 0x66676869, 0x6768696a, 0x68696a6b,
      0x696a6b6c, 0x6a6b6c6d, 0x6b6c6d6e, 0x6c6d6e6f, 0x6d6e6f70, 0x6e6f7071, 0x80000000, 0x00000000,
      0xeb8012ad, 0xa7c3ae92, 0x76e93ba2, 0xba42e743, 0x92a92204, 0xd847e75e, 0x9e160036, 0xb280a7cb,
      0xddeb1516, 0xf36586f4, 0x969cd048, 0xe959d99d, 0x6accc0ec, 0xf54cb098, 0x2af1b2da, 0xee59c4c9);
    NextSixteen(b, 16,
      0xeb8012ad, 0xa7c3ae92, 0x76e93ba2, 0xba42e743, 0x92a92204, 0xd847e75e, 0x9e160036, 0xb280a7cb,
      0xddeb1516, 0xf36586f4, 0x969cd048, 0xe959d99d, 0x6accc0ec, 0xf54cb098, 0x2af1b2da, 0xee59c4c9,
      0xa835e16a, 0x1dff4429, 0xd6e15959, 0xc397cd6e, 0x6f1801ca, 0x21574205, 0x35ff7a84, 0x9743ee78,
      0xe44183e7, 0x0d09f00d, 0x9c89af54, 0x042d5bef, 0x71f134d0, 0x0f94f463, 0x7e49dc63, 0x6f65c997);
    NextSixteen(b, 32,
      0xa835e16a, 0x1dff4429, 0xd6e15959, 0xc397cd6e, 0x6f1801ca, 0x21574205, 0x35ff7a84, 0x9743ee78,
      0xe44183e7, 0x0d09f00d, 0x9c89af54, 0x042d5bef, 0x71f134d0, 0x0f94f463, 0x7e49dc63, 0x6f65c997,
      0x0b706583, 0x179312ca, 0x503054e9, 0xba125c39, 0x7e9392c9, 0xd5cbaa1e, 0x78e0585d, 0xf6e7611c,
      0x8ac830ce, 0x8b47a303, 0xfd6e627f, 0x8c6e2c6a, 0x4001adf1, 0x1a3dd097, 0xa9df6f62, 0x6aa60a39);
  }

  lemma FirstTurns0(u: Work, b: Bytes)
    requires |b| == 64 && Rounds(u, b, 0)
      == Work(0x6a09e667, 0xbb67ae85, 0x3c6ef372, 0xa54ff53a, 0x510e527f, 0x9b05688c, 0x1f83d9ab, 0x5be0cd19)
    requires Sixteen(b, 0,
      0x61626364, 0x62636465, 0x63646566, 0x64656667, 0x65666768, 0x66676869, 0x6768696a, 0x68696a6b,
      0x696a6b6c, 0x6a6b6c6d, 0x6b6c6d6e, 0x6c6d6e6f, 0x6d6e6f70, 0x6e6f7071, 0x80000000, 0x00000000)
    ensures Rounds(u, b, 16)
      == Work(0xc3486194, 0xdd16cbb3, 0xd68e6457, 0x101a4861, 0x1496a54f, 0x9162aded, 0x9243f8af, 0x839a0fc9)
  {
    hide Rounds, RoundConstant, Schedule;
    Constants0();
    Constants1();
    var v := Rounds(u, b, 0);
    v := Turn(u, b, 0, v, 0x428a2f98, 0x61626364, 0x5d6aebb1, 0xfa2a4606);
    v := Turn(u, b, 1, v, 0x71374491, 0x62636465, 0x2f2d5fcf, 0x4eb1cfce);
    v := Turn(u, b, 2, v, 0xb5c0fbcf, 0x63646566, 0x97651825, 0x62d5c49e);
    v := Turn(u, b, 3, v, 0xe9b5dba5, 0x64656667, 0x4a8d64d5, 0x6494841b);
    v := Turn(u, b, 4, v, 0x3956c25b, 0x65666768, 0xf921c212, 0x05c4f88a);
    v := Turn(u, b, 5, v, 0x59f111f1, 0x66676869, 0x55c8ef48, 0x7ff91c94);
    v := Turn(u, b, 6, v, 0x923f82a4, 0x6768696a, 0x485835b7, 0x39a5b2ca);
    v := Turn(u, b, 7, v, 0xab1c5ed5, 0x68696a6b, 0xd237e6db, 0xa401d211);
    v := Turn(u, b, 8, v, 0xd807aa98, 0x696a6b6c, 0x359f2bce, 0xc09ffec4);
    v := Turn(u, b, 9, v, 0x12835b01, 0x6a6b6c6d, 0x3a474b2b, 0x9037b3b8);
    v := Turn(u, b, 10, v, 0x243185be, 0x6b6c6d6e, 0xb8e2b4cb, 0x443ed29e);
    v := Turn(u, b, 11, v, 0x550c7dc3, 0x6c6d6e6f, 0x1762215c, 0xee1c97a8);
    v := Turn(u, b, 12, v, 0x72be5d74, 0x6d6e6f70, 0x101a4861, 0x839a0fc9);
    v := Turn(u, b, 13, v, 0x80deb1fe, 0x6e6f7071, 0xd68e6457, 0x9243f8af);
    v := Turn(u, b, 14, v, 0x9bdc06a7, 0x80000000, 0xdd16cbb3, 0x9162aded);
    v := Turn(u, b, 15, v, 0xc19bf174, 0x00000000, 0xc3486194, 0x1496a54f);
  }

  lemma FirstTurns1(u: Work, b: Bytes)
    requires |b| == 64 && Rounds(u, b, 16)
      == Work(0xc3486194, 0xdd16cbb3, 0xd68e6457, 0x101a4861, 0x1496a54f, 0x9162aded, 0x9243f8af, 0x839a0fc9)
    requires Sixteen(b, 16,
      0xeb8012ad, 0xa7c3ae92, 0x76e93ba2, 0xba42e743, 0x92a92204, 0xd847e75e, 0x9e160036, 0xb280a7cb,
      0xddeb1516, 0xf36586f4, 0x969cd048, 0xe959d99d, 0x6accc0ec, 0xf54cb098, 0x2af1b2da, 0xee59c4c9)
    ensures Rounds(u, b, 32)
      == Work(0x5581ab07, 0xeb43f3ed, 0xdf7151a0, 0x74bcf468, 0xdf980085, 0x0635d880, 0x7629c961, 0x72abaecd)
  {
    hide Rounds, RoundConstant, Schedule;
    Constants2();
    Constants3();
    var v := Rounds(u, b, 16);
    v := Turn(u, b, 16, v, 0xe49b69c1, 0xeb8012ad, 0xb9dcacb1, 0xd4f64250);
    v := Turn(u, b, 17, v, 0xefbe4786, 0xa7c3ae92, 0x046a193e, 0x885370b6);
    v := Turn(u, b, 18, v, 0x0fc19dc6, 0x76e93ba2, 0xf402f058, 0x6f433549);
    v := Turn(u, b, 19, v, 0x240ca1cc, 0xba42e743, 0x2139187b, 0x7c304206);
    v := Turn(u, b, 20, v, 0x2de92c6f, 0x92a92204, 0xd70ac17d, 0x7cc6b262);
    v := Turn(u, b, 21, v, 0x4a7484aa, 0xd847e75e, 0x1b2b66b8, 0xd560b028);
    v := Turn(u, b, 22, v, 0x5cb0a9dc, 0x9e160036, 0xae2e2d4f, 0xf074fc95);
    v := Turn(u, b, 23, v, 0x76f988da, 0xb280a7cb, 0x59fce6b9, 0xa2c7d51d);
    v := Turn(u, b, 24, v, 0x983e5152, 0xddeb1516, 0x4a885065, 0x763597fb);
    v := Turn(u, b, 25, v, 0xa831c66d, 0xf36586f4, 0x573221da, 0x36e74eb4);
    v := Turn(u, b, 26, v, 0xb00327c8, 0x969cd048, 0x128661da, 0x1162d575);
    v := Turn(u, b, 27, v, 0xbf597fc7, 0xe959d99d, 0x73f858af, 0xe77c797f);
    v := Turn(u, b, 28, v, 0xc6e00bf3, 0x6accc0ec, 0x74bcf468, 0x72abaecd);
    v := Turn(u, b, 29, v, 0xd5a79147, 0xf54cb098, 0xdf7151a0, 0x7629c961);
    v := Turn(u, b, 30, v, 0x06ca6351, 0x2af1b2da, 0xeb43f3ed, 0x0635d880);
    v := Turn(u, b, 31, v, 0x14292967, 0xee59c4c9, 0x5581ab07, 0xdf980085);
  }

  lemma FirstTurns2(u: Work, b: Bytes)
    requires |b| == 64 && Rounds(u, b, 32)
      == Work(0x5581ab07, 0xeb43f3ed, 0xdf7151a0, 0x74bcf468, 0xdf980085, 0x0635d880, 0x7629c961, 0x72abaecd)
    requires Sixteen(b, 32,
      0xa835e16a, 0x1dff4429, 0xd6e15959, 0xc397cd6e, 0x6f1801ca, 0x21574205, 0x35ff7a84, 0x9743ee78,
      0xe44183e7, 0x0d09f00d, 0x9c89af54, 0x042d5bef, 0x71f134d0, 0x0f94f463, 0x7e49dc63, 0x6f65c997)
    ensures Rounds(u, b, 48)
      == Work(0x13d82741, 0x165be9cd, 0x18f0d19d, 0xde71e2f2, 0xa7802a4d, 0xa483f080, 0x6b88472c, 0xff61c636)
  {
    hide Rounds, RoundConstant, Schedule;
    Constants4();
    Constants5();
    var v := Rounds(u, b, 32);
    v := Turn(u, b, 32, v, 0x27b70a85, 0xa835e16a, 0x9fc905c8, 0xa94d2af1);
    v := Turn(u, b, 33, v, 0x2e1b2138, 0x1dff4429, 0x9ce5a62f, 0x6ef3b6bd);
    v := Turn(u, b, 34, v, 0x4d2c6dfc, 0xd6e15959, 0x1df8e885, 0x2a9e048e);
    v := Turn(u, b, 35, v, 0x53380d13, 0xc397cd6e, 0x0786dce8, 0xde2a21d1);
    v := Turn(u, b, 36, v, 0x650a7354, 0x6f1801ca, 0x2c55d3a6, 0xb067c1af);
    v := Turn(u, b, 37, v, 0x766a0abb, 0x21574205, 0xa985b4be, 0xf72bf353);
    v := Turn(u, b, 38, v, 0x81c2c92e, 0x35ff7a84, 0x91ac9d5d, 0x68d8d590);
    v := Turn(u, b, 39, v, 0x92722c85, 0x9743ee78, 0x7e4d30b8, 0x9f5b9b6d);
    v := Turn(u, b, 40, v, 0xa2bfe8a1, 0xe44183e7, 0x7e056794, 0x423b26c0);
    v := Turn(u, b, 41, v, 0xa81a664b, 0x0d09f00d, 0x508a16ab, 0x45459d97);
    v := Turn(u, b, 42, v, 0xc24b8b70, 0x9c89af54, 0xb62c7013, 0x80a92a00);
    v := Turn(u, b, 43, v, 0xc76c51a3, 0x042d5bef, 0x167361de, 0x41dd3844);
    v := Turn(u, b, 44, v, 0xd192e819, 0x71f134d0, 0xde71e2f2, 0xff61c636);
    v := Turn(u, b, 45, v, 0xd6990624, 0x0f94f463, 0x18f0d19d, 0x6b88472c);
    v := Turn(u, b, 46, v, 0xf40e3585, 0x7e49dc63, 0x165be9cd, 0xa483f080);
    v := Turn(u, b, 47, v, 0x106aa070, 0x6f65c997, 0x13d82741, 0xa7802a4d);
  }

  lemma FirstTurns3(u: Work, b: Bytes)
    requires |b| == 64 && Rounds(u, b, 48)
      == Work(0x13d82741, 0x165be9cd, 0x18f0d19d, 0xde71e2f2, 0xa7802a4d, 0xa483f080, 0x6b88472c, 0xff61c636)
    requires Sixteen(b, 48,
      0x0b706583, 0x179312ca, 0x503054e9, 0xba125c39, 0x7e9392c9, 0xd5cbaa1e, 0x78e0585d, 0xf6e7611c,
      0x8ac830ce, 0x8b47a303, 0xfd6e627f, 0x8c6e2c6a, 0x4001adf1, 0x1a3dd097, 0xa9df6f62, 0x6aa60a39)
    ensures Rounds(u, b, 64)
      == Work(0x1bdc6f6f, 0x86126910, 0xf6f443f8, 0xbcfce922, 0x25d2430a, 0x2fc08f85, 0xacc75916, 0x962d8621)
  {
    hide Rounds, RoundConstant, Schedule;
    Constants6();
    Constants7();
    var v := Rounds(u, b, 48);
    v := Turn(u, b, 48, v, 0x19a4c116, 0x0b706583, 0x017b9d99, 0xaeb10b60);
    v := Turn(u, b, 49, v, 0x1e376c08, 0x179312ca, 0x543c99a1, 0x16f134b6);
    v := Turn(u, b, 50, v, 0x2748774c, 0x503054e9, 0x758ca97a, 0x100cf2ea);
    v := Turn(u, b, 51, v, 0x34b0bcb5, 0xba125c39, 0x81c1cde0, 0x5c47eb7b);
    v := Turn(u, b, 52, v, 0x391c0cb3, 0x7e9392c9, 0xb8d55619, 0x1c806a61);
    v := Turn(u, b, 53, v, 0x4ed8aa4a, 0xd5cbaa1e, 0x1d6de87a, 0x3443bed4);
    v := Turn(u, b, 54, v, 0x5b9cca4f, 0x78e0585d, 0xf907b313, 0x61a41711);
    v := Turn(u, b, 55, v, 0x682e6ff3, 0xf6e7611c, 0x9e57c4a0, 0xeec13548);
    v := Turn(u, b, 56, v, 0x748f82ee, 0x8ac830ce, 0x71629856, 0x2f6c8c4e);
    v := Turn(u, b, 57, v, 0x78a5636f, 0x8b47a303, 0x7c015a2c, 0xcb9d3dd0);
    v := Turn(u, b, 58, v, 0x84c87814, 0xfd6e627f, 0x921fccb6, 0x43d8a034);
    v := Turn(u, b, 59, v, 0x8cc70208, 0x8c6e2c6a, 0xe18f259a, 0x51e15869);
    v := Turn(u, b, 60, v, 0x90befffa, 0x4001adf1, 0xbcfce922, 0x962d8621);
    v := Turn(u, b, 61, v, 0xa4506ceb, 0x1a3dd097, 0xf6f443f8, 0xacc75916);
    v := Turn(u, b, 62, v, 0xbef9a3f7, 0xa9df6f62, 0x86126910, 0x2fc08f85);
    v := Turn(u, b, 63, v, 0xc67178f2, 0x6aa60a39, 0x1bdc6f6f, 0x25d2430a);
  }

  // The second block of the message of 56 bytes.

  lemma SecondWords(b: Bytes)
    requires |b| == 64 && Sixteen(b, 0,
      0x00000000, 0x00000000, 0x00000000, 0x00000000, 0x00000000, 0x00000000, 0x00000000, 0x00000000,
      0x00000000, 0x00000000, 0x00000000, 0x00000000, 0x00000000, 0x00000000, 0x00000000, 0x000001c0)
    ensures Sixteen(b, 16,
      0x00000000, 0x00d80000, 0x00000000, 0x00003677, 0x00000000, 0x1df5600d, 0x000001c0, 0x1c00501c,
      0x01b00000, 0x220a8d94, 0x0000a365, 0x177017e7, 0x63d38035, 0x090ab713, 0x4c7539ca, 0x0f19a8c9)
    ensures Sixteen(b, 32,
      0x5df4b0c4, 0xe257036a, 0xc97bb6f1, 0xc5b46f4d, 0xf8253c4e, 0xa558d189, 0x78696285, 0xed07117f,
      0x107358f6, 0x390ae496, 0x565010a2, 0xc51d7d44, 0x9e74c972, 0x6614b561, 0x30fc129d, 0x9ac684a8)
    ensures Sixteen(b, 48,
      0x2b658dbd, 0xe290f793, 0x9eebb24c, 0x9713b5de, 0x41061ab7, 0xe022e23b, 0x0772079e, 0x7de22d9c,
      0xc8b83778, 0x75a79849, 0xd93dbddb, 0x0a036c9d, 0xcb4f6ac6, 0x823f97e2, 0xea2f2a7a, 0xb9018b52)
  {
    hide Sixteen;
    NextSixteen(b, 0,
      0x00000000, 0x00000000, 0x00000000, 0x00000000, 0x00000000, 0x00000000, 0x00000000, 0x00000000,
      0x00000000, 0x00000000, 0x00000000, 0x00000000, 0x00000000, 0x00000000, 0x00000000, 0x000001c0,
      0x00000000, 0x00d80000, 0x00000000, 0x00003677, 0x00000000, 0x1df5600d, 0x000001c0, 0x1c00501c,
      0x01b00000, 0x220a8d94, 0x0000a365, 0x177017e7, 0x63d38035, 0x090ab713, 0x4c7539ca, 0x0f19a8c9);
    NextSixteen(b, 16,
      0x00000000, 0x00d80000, 0x00000000, 0x00003677, 0x00000000, 0x1df5600d, 0x000001c0, 0x1c00501c,
      0x01b00000, 0x220a8d94, 0x0000a365, 0x177017e7, 0x63d38035, 0x090ab713, 0x4c7539ca, 0x0f19a8c9,
      0x5df4b0c4, 0xe257036a, 0xc97bb6f1, 0xc5b46f4d, 0xf8253c4e, 0xa558d189, 0x78696285, 0xed07117f,
      0x107358f6, 0x390ae496, 0x565010a2, 0xc51d7d44, 0x9e74c972, 0x6614b561, 0x30fc129d, 0x9ac684a8);
    NextSixteen(b, 32,
      0x5df4b0c4, 0xe257036a, 0xc97bb6f1, 0xc5b46f4d, 0xf8253c4e, 0xa558d189, 0x78696285, 0xed07117f,
      0x107358f6, 0x390ae496, 0x565010a2, 0xc51d7d44, 0x9e74c972, 0x6614b561, 0x30fc129d, 0x9ac684a8,
      0x2b658dbd, 0xe290f793, 0x9eebb24c, 0x9713b5de, 0x41061ab7, 0xe022e23b, 0x0772079e, 0x7de22d9c,
      0xc8b83778, 0x75a79849, 0xd93dbddb, 0x0a036c9d, 0xcb4f6ac6, 0x823f97e2, 0xea2f2a7a, 0xb9018b52);
  }

  lemma SecondTurns0(u: Work, b: Bytes)
    requires |b| == 64 && Rounds(u, b, 0)
      == Work(0x85e655d6, 0x417a1795, 0x3363376a, 0x624cde5c, 0x76e09589, 0xcac5f811, 0xcc4b32c1, 0xf20e533a)
    requires Sixteen(b, 0,
      0x00000000, 0x00000000, 0x00000000, 0x00000000, 0x00000000, 0x00000000, 0x00000000, 0x00000000,
      0x00000000, 0x00000000, 0x00000000, 0x00000000, 0x00000000, 0x00000000, 0x00000000, 0x000001c0)
    ensures Rounds(u, b, 16)
      == Work(0x16a8cc79, 0x0cea5cbc, 0xd74080fa, 0x35ee996d, 0x0fcb1f6f, 0x60356548, 0x68aa893f, 0x5c24e2a2)
  {
    hide Rounds, RoundConstant, Schedule;
    Constants0();
    Constants1();
    var v := Rounds(u, b, 0);
    v := Turn(u, b, 0, v, 0x428a2f98, 0x00000000, 0x7c20c838, 0x4670ae6e);
    v := Turn(u, b, 1, v, 0x71374491, 0x00000000, 0x7c3c0f86, 0x8c51be64);
    v := Turn(u, b, 2, v, 0xb5c0fbcf, 0x00000000, 0xfd1eebdc, 0xaf71b9ea);
    v := Turn(u, b, 3, v, 0xe9b5dba5, 0x00000000, 0xf268faa9, 0xe20362ef);
    v := Turn(u, b, 4, v, 0x3956c25b, 0x00000000, 0x185a5d79, 0x8dff3001);
    v := Turn(u, b, 5, v, 0x59f111f1, 0x00000000, 0x3eeb6c06, 0xfe20cda6);
    v := Turn(u, b, 6, v, 0x923f82a4, 0x00000000, 0x89bba3f1, 0x0a34df03);
    v := Turn(u, b, 7, v, 0xab1c5ed5, 0x00000000, 0xbf9a93a0, 0x059abdd1);
    v := Turn(u, b, 8, v, 0xd807aa98, 0x00000000, 0x2c096744, 0xabfa465b);
    v := Turn(u, b, 9, v, 0x12835b01, 0x00000000, 0x2d964e86, 0xaa27ed82);
    v := Turn(u, b, 10, v, 0x243185be, 0x00000000, 0x5b35025b, 0x10e77723);
    v := Turn(u, b, 11, v, 0x550c7dc3, 0x00000000, 0x5eb4ec40, 0xe11b4548);
    v := Turn(u, b, 12, v, 0x72be5d74, 0x00000000, 0x35ee996d, 0x5c24e2a2);
    v := Turn(u, b, 13, v, 0x80deb1fe, 0x00000000, 0xd74080fa, 0x68aa893f);
    v := Turn(u, b, 14, v, 0x9bdc06a7, 0x00000000, 0x0cea5cbc, 0x60356548);
    v := Turn(u, b, 15, v, 0xc19bf174, 0x000001c0, 0x16a8cc79, 0x0fcb1f6f);
  }

  lemma SecondTurns1(u: Work, b: Bytes)
    requires |b| == 64 && Rounds(u, b, 16)
      == Work(0x16a8cc79, 0x0cea5cbc, 0xd74080fa, 0x35ee996d, 0x0fcb1f6f, 0x60356548, 0x68aa893f, 0x5c24e2a2)
    requires Sixteen(b, 16,
      0x00000000, 0x00d80000, 0x00000000, 0x00003677, 0x00000000, 0x1df5600d, 0x000001c0, 0x1c00501c,
      0x01b00000, 0x220a8d94, 0x0000a365, 0x177017e7, 0x63d38035, 0x090ab713, 0x4c7539ca, 0x0f19a8c9)
    ensures Rounds(u, b, 32)
      == Work(0xb0eab1c5, 0x02ef3a5f, 0x1cfa5eb0, 0xd958b529, 0xf6d93952, 0x5da10665, 0x6c49db9f, 0xc2fa99b1)
  {
    hide Rounds, RoundConstant, Schedule;
    Constants2();
    Constants3();
    var v := Rounds(u, b, 16);
    v := Turn(u, b, 16, v, 0xe49b69c1, 0x00000000, 0xf16f634e, 0x8b21cdc1);
    v := Turn(u, b, 17, v, 0xefbe4786, 0x00d80000, 0x23dcb6c2, 0xca9182d3);
    v := Turn(u, b, 18, v, 0x0fc19dc6, 0x00000000, 0xdcff40fd, 0x69bf7b95);
    v := Turn(u, b, 19, v, 0x240ca1cc, 0x00003677, 0x76f1a2bc, 0x0dc84bb1);
    v := Turn(u, b, 20, v, 0x2de92c6f, 0x00000000, 0x20aad899, 0xcc4769f2);
    v := Turn(u, b, 21, v, 0x4a7484aa, 0x1df5600d, 0xd44dc81a, 0x5bace62d);
    v := Turn(u, b, 22, v, 0x5cb0a9dc, 0x000001c0, 0xf13ae55b, 0x966aa287);
    v := Turn(u, b, 23, v, 0x76f988da, 0x1c00501c, 0xa4195b91, 0xeddbd6ed);
    v := Turn(u, b, 24, v, 0x983e5152, 0x01b00000, 0x4984fa79, 0xa530d939);
    v := Turn(u, b, 25, v, 0xa831c66d, 0x220a8d94, 0xaa6cb982, 0x0b5eeea4);
    v := Turn(u, b, 26, v, 0xb00327c8, 0x0000a365, 0x9450fbbc, 0x09166dda);
    v := Turn(u, b, 27, v, 0xbf597fc7, 0x177017e7, 0x0d936bab, 0x6e495d4b);
    v := Turn(u, b, 28, v, 0xc6e00bf3, 0x63d38035, 0xd958b529, 0xc2fa99b1);
    v := Turn(u, b, 29, v, 0xd5a79147, 0x090ab713, 0x1cfa5eb0, 0x6c49db9f);
    v := Turn(u, b, 30, v, 0x06ca6351, 0x4c7539ca, 0x02ef3a5f, 0x5da10665);
    v := Turn(u, b, 31, v, 0x14292967, 0x0f19a8c9, 0xb0eab1c5, 0xf6d93952);
  }

  lemma SecondTurns2(u: Work, b: Bytes)
    requires |b| == 64 && Rounds(u, b, 32)
      == Work(0xb0eab1c5, 0x02ef3a5f, 0x1cfa5eb0, 0xd958b529, 0xf6d93952, 0x5da10665, 0x6c49db9f, 0xc2fa99b1)
    requires Sixteen(b, 32,
      0x5df4b0c4, 0xe257036a, 0xc97bb6f1, 0xc5b46f4d, 0xf8253c4e, 0xa558d189, 0x78696285, 0xed07117f,
      0x107358f6, 0x390ae496, 0x565010a2, 0xc51d7d44, 0x9e74c972, 0x6614b561, 0x30fc129d, 0x9ac684a8)
    ensures Rounds(u, b, 48)
      == Work(0xd7354d5b, 0x0b3303a7, 0x104a7db4, 0x0f154e11, 0xaad55b6b, 0xbbe1c39a, 0x5348e8f6, 0x6f9517cb)
  {
    hide Rounds, RoundConstant, Schedule;
    Constants4();
    Constants5();
    var v := Rounds(u, b, 32);
    v := Turn(u, b, 32, v, 0x27b70a85, 0x5df4b0c4, 0x0bfba73c, 0x8b99e3a9);
    v := Turn(u, b, 33, v, 0x2e1b2138, 0xe257036a, 0x4bd1df96, 0x905e44ac);
    v := Turn(u, b, 34, v, 0x4d2c6dfc, 0xc97bb6f1, 0x9907f1b6, 0x66c3043d);
    v := Turn(u, b, 35, v, 0x53380d13, 0xc5b46f4d, 0xecde4e0d, 0x5dc119e6);
    v := Turn(u, b, 36, v, 0x650a7354, 0xf8253c4e, 0x2f11c939, 0xfed4ce1d);
    v := Turn(u, b, 37, v, 0x766a0abb, 0xa558d189, 0xd949682b, 0x32d99008);
    v := Turn(u, b, 38, v, 0x81c2c92e, 0x78696285, 0xadca7a96, 0xc6cce4ff);
    v := Turn(u, b, 39, v, 0x92722c85, 0xed07117f, 0x221b8a5a, 0x0b82c5eb);
    v := Turn(u, b, 40, v, 0xa2bfe8a1, 0x107358f6, 0x12d97845, 0xe4213ca2);
    v := Turn(u, b, 41, v, 0xa81a664b, 0x390ae496, 0x2c794876, 0xff6759ba);
    v := Turn(u, b, 42, v, 0xc24b8b70, 0x565010a2, 0x8300fca2, 0xe0e3457c);
    v := Turn(u, b, 43, v, 0xc76c51a3, 0xc51d7d44, 0xf2ad6322, 0xcc48c7f3);
    v := Turn(u, b, 44, v, 0xd192e819, 0x9e74c972, 0x0f154e11, 0x6f9517cb);
    v := Turn(u, b, 45, v, 0xd6990624, 0x6614b561, 0x104a7db4, 0x5348e8f6);
    v := Turn(u, b, 46, v, 0xf40e3585, 0x30fc129d, 0x0b3303a7, 0xbbe1c39a);
    v := Turn(u, b, 47, v, 0x106aa070, 0x9ac684a8, 0xd7354d5b, 0xaad55b6b);
  }

  lemma SecondTurns3(u: Work, b: Bytes)
    requires |b| == 64 && Rounds(u, b, 48)
      == Work(0xd7354d5b, 0x0b3303a7, 0x104a7db4, 0x0f154e11, 0xaad55b6b, 0xbbe1c39a, 0x5348e8f6, 0x6f9517cb)
    requires Sixteen(b, 48,
      0x2b658dbd, 0xe290f793, 0x9eebb24c, 0x9713b5de, 0x41061ab7, 0xe022e23b, 0x0772079e, 0x7de22d9c,
      0xc8b83778, 0x75a79849, 0xd93dbddb, 0x0a036c9d, 0xcb4f6ac6, 0x823f97e2, 0xea2f2a7a, 0xb9018b52)
    ensures Rounds(u, b, 64)
      == Work(0x9ea7148b, 0x908c2123, 0xb25cef29, 0xa9f181dd, 0x2c5c4ed0, 0x9a392956, 0x2aa1bb13, 0x27ccb387)
  {
    hide Rounds, RoundConstant, Schedule;
    Constants6();
    Constants7();
    var v := Rounds(u, b, 48);
    v := Turn(u, b, 48, v, 0x19a4c116, 0x2b658dbd, 0xb736d7a6, 0x68f25260);
    v := Turn(u, b, 49, v, 0x1e376c08, 0xe290f793, 0x2748e5ec, 0xd4b58576);
    v := Turn(u, b, 50, v, 0x2748774c, 0x9eebb24c, 0xd8aabcf9, 0x27844711);
    v := Turn(u, b, 51, v, 0x34b0bcb5, 0x9713b5de, 0x1a6bcf6a, 0xff5e99d0);
    v := Turn(u, b, 52, v, 0x391c0cb3, 0x41061ab7, 0x4eca6fa0, 0x989ed071);
    v := Turn(u, b, 53, v, 0x4ed8aa4a, 0xe022e23b, 0xec02560a, 0x7151df8e);
    v := Turn(u, b, 54, v, 0x5b9cca4f, 0x0772079e, 0xd9f0c115, 0x624150c4);
    v := Turn(u, b, 55, v, 0x682e6ff3, 0x7de22d9c, 0x92952710, 0x226806d6);
    v := Turn(u, b, 56, v, 0x748f82ee, 0xc8b83778, 0x20d4d0e4, 0x4e515a4d);
    v := Turn(u, b, 57, v, 0x78a5636f, 0x75a79849, 0x4348eb1f, 0xc21eddf9);
    v := Turn(u, b, 58, v, 0x84c87814, 0xd93dbddb, 0x286fe5f0, 0x54076664);
    v := Turn(u, b, 59, v, 0x8cc70208, 0x0a036c9d, 0x1c4cddd9, 0xf487a853);
    v := Turn(u, b, 60, v, 0x90befffa, 0xcb4f6ac6, 0xa9f181dd, 0x27ccb387);
    v := Turn(u, b, 61, v, 0xa4506ceb, 0x823f97e2, 0xb25cef29, 0x2aa1bb13);
    v := Turn(u, b, 62, v, 0xbef9a3f7, 0xea2f2a7a, 0x908c2123, 0x9a392956);
    v := Turn(u, b, 63, v, 0xc67178f2, 0xb9018b52, 0x9ea7148b, 0x2c5c4ed0);
  }

  // ------------------------------------------------------------------------------------------
  // From the rounds to the digest
  // ------------------------------------------------------------------------------------------

  /** The working variables are added to the state words they started from. */
  lemma CompressIs(s: Words, b: Bytes, v: Work, r: Words)
    requires |s| == 8 && |b| == 64 && |r| == 8 && Rounds(WorkOf(s), b, 64) == v
    requires Add(s[0], v.a) == r[0] && Add(s[1], v.b) == r[1] && Add(s[2], v.c) == r[2] && Add(s[3], v.d) == r[3]
    requires Add(s[4], v.e) == r[4] && Add(s[5], v.f) == r[5] && Add(s[6], v.g) == r[6] && Add(s[7], v.h) == r[7]
    ensures Compress(s, b) == r
  {
    hide Rounds, Add, WorkOf;
  }

  lemma LastWord(s: Words)
    requires s != []
    ensures AllWordBytes(s) == AllWordBytes(s[..|s| - 1]) + WordBytes(s[|s| - 1])
  {
    hide WordBytes;
  }

  lemma FrontOfSum(a: Bytes, b: Bytes, n: nat)
    requires n <= |a|
    ensures (a + b)[..n] == a[..n]
  {
  }

  /** The digest bytes up to and including those of word `i`. */
  lemma {:induction false} WordAt(s: Words, i: nat)
    requires i < |s|
    ensures AllWordBytes(s)[..4 * i + 4] == AllWordBytes(s)[..4 * i] + WordBytes(s[i])
  {
    hide WordBytes, AllWordBytes;
    LastWord(s);
    var front, last := AllWordBytes(s[..|s| - 1]), WordBytes(s[|s| - 1]);
    FrontOfSum(front, last, 4 * i);
    if i < |s| - 1 {
      WordAt(s[..|s| - 1], i);
      FrontOfSum(front, last, 4 * i + 4);
    } else {
      assert front[..4 * i] == front && (front + last)[..4 * i + 4] == front + last;
    }
  }

  lemma EightWords(s: Words)
    requires |s| == 8
    ensures AllWordBytes(s)
         == WordBytes(s[0]) + WordBytes(s[1]) + WordBytes(s[2]) + WordBytes(s[3])
            + WordBytes(s[4]) + WordBytes(s[5]) + WordBytes(s[6]) + WordBytes(s[7])
  {
    hide WordBytes, AllWordBytes;
    var d := AllWordBytes(s);
    WordAt(s, 0);
    WordAt(s, 1);
    WordAt(s, 2);
    WordAt(s, 3);
    WordAt(s, 4);
    WordAt(s, 5);
    WordAt(s, 6);
    WordAt(s, 7);
    assert d[..0] + WordBytes(s[0]) == WordBytes(s[0]) && d == d[..32];
  }

  lemma StartOf(s: Words, b: Bytes, u: Work)
    requires |s| == 8 && |b| == 64
    requires s == [u.a, u.b, u.c, u.d, u.e, u.f, u.g, u.h]
    ensures WorkOf(s) == u == Rounds(u, b, 0)
  {
  }

  lemma OneBlock(s: Words, b: Bytes)
    requires |s| == 8 && |b| == 64
    ensures HashBlocks(s, b) == Compress(s, b)
  {
    OneMoreBlock(s, [], b);
    assert [] + b == b;
  }

  const ABC_STATE: Words := [
    0xba7816bf, 0x8f01cfea, 0x414140de, 0x5dae2223, 0xb00361a3, 0x96177a9c, 0xb410ff61, 0xf20015ad]

  lemma AbcCompress(b: Bytes)
    requires |b| == 64
    requires Sixteen(b, 0,
      0x61626380, 0x00000000, 0x00000000, 0x00000000, 0x00000000, 0x00000000, 0x00000000, 0x00000000,
      0x00000000, 0x00000000, 0x00000000, 0x00000000, 0x00000000, 0x00000000, 0x00000000, 0x00000018)
    ensures Compress(IV, b) == ABC_STATE
  {
    hide Rounds, Sixteen, Compress;
    var u := Work(0x6a09e667, 0xbb67ae85, 0x3c6ef372, 0xa54ff53a, 0x510e527f, 0x9b05688c, 0x1f83d9ab, 0x5be0cd19);
    StartOf(IV, b, u);
    AbcWords(b);
    AbcTurns0(u, b);
    AbcTurns1(u, b);
    AbcTurns2(u, b);
    AbcTurns3(u, b);
    CompressIs(IV, b, Rounds(u, b, 64), ABC_STATE);
  }

  const FIRST_STATE: Words := [
    0x85e655d6, 0x417a1795, 0x3363376a, 0x624cde5c, 0x76e09589, 0xcac5f811, 0xcc4b32c1, 0xf20e533a]

  lemma FirstCompress(b: Bytes)
    requires |b| == 64
    requires Sixteen(b, 0,
      0x61626364, 0x62636465, 0x63646566, 0x64656667, 0x65666768, 0x66676869, 0x6768696a, 0x68696a6b,
      0x696a6b6c, 0x6a6b6c6d, 0x6b6c6d6e, 0x6c6d6e6f, 0x6d6e6f70, 0x6e6f7071, 0x80000000, 0x00000000)
    ensures Compress(IV, b) == FIRST_STATE
  {
    hide Rounds, Sixteen, Compress;
    var u := Work(0x6a09e667, 0xbb67ae85, 0x3c6ef372, 0xa54ff53a, 0x510e527f, 0x9b05688c, 0x1f83d9ab, 0x5be0cd19);
    StartOf(IV, b, u);
    FirstWords(b);
    FirstTurns0(u, b);
    FirstTurns1(u, b);
    FirstTurns2(u, b);
    FirstTurns3(u, b);
    CompressIs(IV, b, Rounds(u, b, 64), FIRST_STATE);
  }

  const SECOND_STATE: Words := [
    0x248d6a61, 0xd20638b8, 0xe5c02693, 0x0c3e6039, 0xa33ce459, 0x64ff2167, 0xf6ecedd4, 0x19db06c1]

  lemma SecondCompress(b: Bytes)
    requires |b| == 64
    requires Sixteen(b, 0,
      0x00000000, 0x00000000, 0x00000000, 0x00000000, 0x00000000, 0x00000000, 0x00000000, 0x00000000,
      0x00000000, 0x00000000, 0x00000000, 0x00000000, 0x00000000, 0x00000000, 0x00000000, 0x000001c0)
    ensures Compress(FIRST_STATE, b) == SECOND_STATE
  {
    hide Rounds, Sixteen, Compress;
    var u := Work(0x85e655d6, 0x417a1795, 0x3363376a, 0x624cde5c, 0x76e09589, 0xcac5f811, 0xcc4b32c1, 0xf20e533a);
    StartOf(FIRST_STATE, b, u);
    SecondWords(b);
    SecondTurns0(u, b);
    SecondTurns1(u, b);
    SecondTurns2(u, b);
    SecondTurns3(u, b);
    CompressIs(FIRST_STATE, b, Rounds(u, b, 64), SECOND_STATE);
  }

  /** The four bytes of a word of a block. */
  lemma WordIs(b: Bytes, t: nat, b0: bv8, b1: bv8, b2: bv8, b3: bv8, w: bv32)
    requires |b| == 64 && t < 16 && b[4 * t] == b0 && b[4 * t + 1] == b1 && b[4 * t + 2] == b2 && b[4 * t + 3] == b3
    requires BigEndianWord(b0, b1, b2, b3) == w
    ensures Schedule(b, t) == w
  {
    hide BigEndianWord;
  }

  lemma ZeroWords(b: Bytes, i: nat, n: nat)
    requires |b| == 64 && i <= n <= 16 && forall j: nat | 4 * i <= j < 4 * n :: b[j] == 0
    ensures forall t: nat | i <= t < n :: Schedule(b, t) == 0
  {
    hide Schedule;
    forall t: nat | i <= t < n
      ensures Schedule(b, t) == 0
    {
      WordIs(b, t, 0, 0, 0, 0, 0);
    }
  }

  /** A length of less than 65536 bits. */
  lemma ShortLength(bits: nat)
    requires bits < 65536
    ensures LengthBytes(bits) == [0, 0, 0, 0, 0, 0, ByteOf(bits / 256), ByteOf(bits % 256)]
  {
    hide ByteOf;
    SmallBytes();
    assert BigEndian(0, 4) == [0, 0, 0, 0];
    assert BigEndian(0, 6) == [0, 0, 0, 0, 0, 0];
    assert BigEndian(bits / 256, 7) == [0, 0, 0, 0, 0, 0] + [ByteOf(bits / 256)];
  }

  lemma Byte24()
    ensures ByteOf(24) == 24
  {
    assert DigitsOf(24, 8) == [false, false, false, true, true, false, false, false];
  }

  lemma Byte192()
    ensures ByteOf(192) == 192
  {
    assert DigitsOf(192, 8) == [false, false, false, false, false, false, true, true];
  }

  /** What FIPS 180-4 section 5.1.1 puts after a message: one bit, zeros, and the length in the last eight bytes. */
  lemma PaddedBytes(m: Bytes)
    requires 8 * |m| < TWO_64
    ensures var p, n := Padded(m), |m|;
            && p[..n] == m && p[n] == 0x80 && (forall j: nat | n < j < |p| - 8 :: p[j] == 0)
            && p[|p| - 8..] == LengthBytes(8 * n)
  {
    hide LengthBytes;
  }

  // The two examples.

  const ABC: Bytes := [0x61, 0x62, 0x63]

  const M0: Bytes :=
    [0x61, 0x62, 0x63, 0x64, 0x62, 0x63, 0x64, 0x65, 0x63, 0x64, 0x65, 0x66, 0x64, 0x65, 0x66, 0x67]

  const M1: Bytes :=
    [0x65, 0x66, 0x67, 0x68, 0x66, 0x67, 0x68, 0x69, 0x67, 0x68, 0x69, 0x6a, 0x68, 0x69, 0x6a, 0x6b]

  const M2: Bytes :=
    [0x69, 0x6a, 0x6b, 0x6c, 0x6a, 0x6b, 0x6c, 0x6d, 0x6b, 0x6c, 0x6d, 0x6e, 0x6c, 0x6d, 0x6e, 0x6f]

  const M3: Bytes :=
    [0x6d, 0x6e, 0x6f, 0x70, 0x6e, 0x6f, 0x70, 0x71]

  const TWO_BLOCKS: Bytes := M0 + M1 + M2 + M3

  lemma AbcBlock()
    ensures |Padded(ABC)| == 64
    ensures Sixteen(Padded(ABC), 0,
      0x61626380, 0x00000000, 0x00000000, 0x00000000, 0x00000000, 0x00000000, 0x00000000, 0x00000000,
      0x00000000, 0x00000000, 0x00000000, 0x00000000, 0x00000000, 0x00000000, 0x00000000, 0x00000018)
  {
    hide Schedule, Padded, LengthBytes, ByteOf;
    var b := Padded(ABC);
    PaddedBytes(ABC);
    ShortLength(24);
    SmallBytes();
    Byte24();
    WordIs(b, 0, 0x61, 0x62, 0x63, 0x80, 0x61626380);
    ZeroWords(b, 1, 15);
    WordIs(b, 15, 0, 0, 0, 0x18, 0x18);
  }

  /** The first example of FIPS 180-4. */
  lemma AbcDigest()
    ensures Digest(ABC)
         == [0xba, 0x78, 0x16, 0xbf] + [0x8f, 0x01, 0xcf, 0xea] + [0x41, 0x41, 0x40, 0xde] + [0x5d, 0xae, 0x22, 0x23]
            + [0xb0, 0x03, 0x61, 0xa3] + [0x96, 0x17, 0x7a, 0x9c] + [0xb4, 0x10, 0xff, 0x61] + [0xf2, 0x00, 0x15, 0xad]
  {
    hide Compress, HashBlocks, Padded, AllWordBytes, Sixteen;
    AbcBlock();
    var b := Padded(ABC);
    OneBlock(IV, b);
    AbcCompress(b);
    EightWords(ABC_STATE);
  }

  /** The block holds the message and what follows it. */
  ghost predicate HoldsFirst(b: Bytes) {
    && |b| == 64
    && (forall j: nat | j < 16 :: b[j] == M0[j]) && (forall j: nat | 16 <= j < 32 :: b[j] == M1[j - 16])
    && (forall j: nat | 32 <= j < 48 :: b[j] == M2[j - 32]) && (forall j: nat | 48 <= j < 56 :: b[j] == M3[j - 48])
    && b[56] == 0x80 && forall j: nat | 57 <= j < 64 :: b[j] == 0
  }

  lemma TwoBlocksPadded(b: Bytes, c: Bytes)
    requires b == Padded(TWO_BLOCKS)[..64] && c == Padded(TWO_BLOCKS)[64..]
    ensures HoldsFirst(b)
    ensures |c| == 64 && (forall j: nat | j < 62 :: c[j] == 0) && c[62] == 0x01 && c[63] == 0xc0
  {
    hide Padded, LengthBytes, ByteOf;
    var p, len := Padded(TWO_BLOCKS), LengthBytes(448);
    PaddedBytes(TWO_BLOCKS);
    ShortLength(448);
    SmallBytes();
    Byte192();
    assert p[120..] == len;
    forall j: nat | j < 8
      ensures c[56 + j] == len[j]
    {
      assert p[120..][j] == len[j];
    }
    assert p[..56] == TWO_BLOCKS && b[..56] == p[..56];
    forall j: nat | j < 56
      ensures b[j] == TWO_BLOCKS[j]
    {
      assert b[..56][j] == TWO_BLOCKS[j];
    }
  }

  lemma FirstBlock0(b: Bytes)
    requires |b| == 64 && forall j: nat | j < 16 :: b[j] == M0[j]
    ensures Schedule(b, 0) == 0x61626364 && Schedule(b, 1) == 0x62636465
    ensures Schedule(b, 2) == 0x63646566 && Schedule(b, 3) == 0x64656667
  {
    hide Schedule;
    WordIs(b, 0, 0x61, 0x62, 0x63, 0x64, 0x61626364);
    WordIs(b, 1, 0x62, 0x63, 0x64, 0x65, 0x62636465);
    WordIs(b, 2, 0x63, 0x64, 0x65, 0x66, 0x63646566);
    WordIs(b, 3, 0x64, 0x65, 0x66, 0x67, 0x64656667);
  }

  lemma FirstBlock1(b: Bytes)
    requires |b| == 64 && forall j: nat | 16 <= j < 32 :: b[j] == M1[j - 16]
    ensures Schedule(b, 4) == 0x65666768 && Schedule(b, 5) == 0x66676869
    ensures Schedule(b, 6) == 0x6768696a && Schedule(b, 7) == 0x68696a6b
  {
    hide Schedule;
    WordIs(b, 4, 0x65, 0x66, 0x67, 0x68, 0x65666768);
    WordIs(b, 5, 0x66, 0x67, 0x68, 0x69, 0x66676869);
    WordIs(b, 6, 0x67, 0x68, 0x69, 0x6a, 0x6768696a);
    WordIs(b, 7, 0x68, 0x69, 0x6a, 0x6b, 0x68696a6b);
  }

  lemma FirstBlock2(b: Bytes)
    requires |b| == 64 && forall j: nat | 32 <= j < 48 :: b[j] == M2[j - 32]
    ensures Schedule(b, 8) == 0x696a6b6c && Schedule(b, 9) == 0x6a6b6c6d
    ensures Schedule(b, 10) == 0x6b6c6d6e && Schedule(b, 11) == 0x6c6d6e6f
  {
    hide Schedule;
    WordIs(b, 8, 0x69, 0x6a, 0x6b, 0x6c, 0x696a6b6c);
    WordIs(b, 9, 0x6a, 0x6b, 0x6c, 0x6d, 0x6a6b6c6d);
    WordIs(b, 10, 0x6b, 0x6c, 0x6d, 0x6e, 0x6b6c6d6e);
    WordIs(b, 11, 0x6c, 0x6d, 0x6e, 0x6f, 0x6c6d6e6f);
  }

  lemma FirstBlock3(b: Bytes)
    requires |b| == 64 && forall j: nat | 48 <= j < 56 :: b[j] == M3[j - 48]
    requires b[56] == 0x80 && forall j: nat | 57 <= j < 64 :: b[j] == 0
    ensures Schedule(b, 12) == 0x6d6e6f70 && Schedule(b, 13) == 0x6e6f7071
    ensures Schedule(b, 14) == 0x80000000 && Schedule(b, 15) == 0x00000000
  {
    hide Schedule;
    WordIs(b, 12, 0x6d, 0x6e, 0x6f, 0x70, 0x6d6e6f70);
    WordIs(b, 13, 0x6e, 0x6f, 0x70, 0x71, 0x6e6f7071);
    WordIs(b, 14, 0x80, 0x00, 0x00, 0x00, 0x80000000);
    WordIs(b, 15, 0x00, 0x00, 0x00, 0x00, 0x00000000);
  }

  lemma FirstBlock(b: Bytes)
    requires HoldsFirst(b)
    ensures |b| == 64
    ensures Sixteen(b, 0,
      0x61626364, 0x62636465, 0x63646566, 0x64656667, 0x65666768, 0x66676869, 0x6768696a, 0x68696a6b,
      0x696a6b6c, 0x6a6b6c6d, 0x6b6c6d6e, 0x6c6d6e6f, 0x6d6e6f70, 0x6e6f7071, 0x80000000, 0x00000000)
  {
    hide Schedule;
    FirstBlock0(b);
    FirstBlock1(b);
    FirstBlock2(b);
    FirstBlock3(b);
  }

  lemma SecondBlock(b: Bytes)
    requires |b| == 64 && (forall j: nat | j < 62 :: b[j] == 0) && b[62] == 0x01 && b[63] == 0xc0
    ensures Sixteen(b, 0,
      0x00000000, 0x00000000, 0x00000000, 0x00000000, 0x00000000, 0x00000000, 0x00000000, 0x00000000,
      0x00000000, 0x00000000, 0x00000000, 0x00000000, 0x00000000, 0x00000000, 0x00000000, 0x000001c0)
  {
    hide Schedule;
    ZeroWords(b, 0, 15);
    WordIs(b, 15, 0, 0, 0x01, 0xc0, 0x1c0);
  }

  /** The second example of FIPS 180-4. */
  lemma TwoBlocksDigest()
    ensures Digest(TWO_BLOCKS)
         == [0x24, 0x8d, 0x6a, 0x61] + [0xd2, 0x06, 0x38, 0xb8] + [0xe5, 0xc0, 0x26, 0x93] + [0x0c, 0x3e, 0x60, 0x39]
            + [0xa3, 0x3c, 0xe4, 0x59] + [0x64, 0xff, 0x21, 0x67] + [0xf6, 0xec, 0xed, 0xd4] + [0x19, 0xdb, 0x06, 0xc1]
  {
    hide Compress, HashBlocks, Padded, AllWordBytes, Sixteen;
    var p := Padded(TWO_BLOCKS);
    assert |p| == 128;
    var b, c := p[..64], p[64..];
    TwoBlocksPadded(b, c);
    FirstBlock(b);
    SecondBlock(c);
    OneBlock(IV, b);
    assert p == b + c;
    OneMoreBlock(IV, b, c);
    FirstCompress(b);
    SecondCompress(c);
    EightWords(SECOND_STATE);
  }
}
