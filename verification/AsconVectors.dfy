/**
 * Ascon-128 worked through on three inputs under the key and nonce 00 01 ... 0F: nothing to encrypt, one byte of data
 * and one of plaintext, and nine bytes of each. Every step is one round of the permutation.
 */
module AsconVectors {
  import opened AsconPermutation
  import opened Ascon

  // ------------------------------------------------------------------------------------------
  // One round, one word
  // ------------------------------------------------------------------------------------------

  /** One round with the rotations as the source's shifts. */
  function Turned(s: State, rc: bv64): State {
    var m := Substitute(AddConstant(s, rc));
    State(Spread0(m.x0), Spread1(m.x1), Spread2(m.x2), Spread3(m.x3), Spread4(m.x4))
  }

  lemma Step(u: State, from: nat, i: nat, s: State, rc: bv64, t: State) returns (r: State)
    requires from <= i < 12 && Rounds(u, from, i) == s && RoundConstant(i) == rc && Turned(s, rc) == t
    ensures r == t == Rounds(u, from, i + 1)
  {
    hide Sigma, Spread0, Spread1, Spread2, Spread3, Spread4, AddConstant, Substitute;
    SpreadsAreSigmas(Substitute(AddConstant(s, rc)));
    r := t;
  }

  lemma NoRounds(u: State, from: nat)
    requires from <= 12
    ensures Rounds(u, from, from) == u
  {
  }

  lemma PermuteIs(u: State, rounds: nat)
    requires rounds <= 12
    ensures Permute(u, rounds) == Rounds(u, 12 - rounds, 12)
  {
  }

  lemma Constants()
    ensures RoundConstant(0) == 0xf0 && RoundConstant(1) == 0xe1 && RoundConstant(2) == 0xd2
    ensures RoundConstant(3) == 0xc3 && RoundConstant(4) == 0xb4 && RoundConstant(5) == 0xa5
    ensures RoundConstant(6) == 0x96 && RoundConstant(7) == 0x87 && RoundConstant(8) == 0x78
    ensures RoundConstant(9) == 0x69 && RoundConstant(10) == 0x5a && RoundConstant(11) == 0x4b
  {
  }

  function Append8(b: Bytes): bv64
    requires |b| == 8
  {
    Append(Append(Append(Append(Append(Append(Append(Append(0, b[0]), b[1]), b[2]), b[3]), b[4]), b[5]), b[6]), b[7])
  }

  lemma LoadNext(b: Bytes, n: nat)
    requires n < |b|
    ensures Load(b[..n + 1]) == Append(Load(b[..n]), b[n])
  {
    hide Append;
    assert b[..n + 1][..n] == b[..n];
  }

  /** The word that eight bytes spell, and the bytes it is stored as. */
  lemma WordOf(b: Bytes, w: bv64)
    requires |b| == 8 && Append8(b) == w
    ensures Load(b) == w && Store(w) == b
  {
    hide Append, Load, StoreLow;
    assert b[..0] == [] && b[..8] == b;
    assert Load([]) == 0 by {
      LoadNothing();
    }
    LoadNext(b, 0);
    LoadNext(b, 1);
    LoadNext(b, 2);
    LoadNext(b, 3);
    LoadNext(b, 4);
    LoadNext(b, 5);
    LoadNext(b, 6);
    LoadNext(b, 7);
    StoreLoad(b);
  }

  lemma LoadNothing()
    ensures Load([]) == 0
  {
  }

  // ------------------------------------------------------------------------------------------
  // The permutations of the three encryptions
  // ------------------------------------------------------------------------------------------

  lemma InitialisedHalf(u: State)
    requires u
         == State(0x80400c0600000000, 0x0001020304050607, 0x08090a0b0c0d0e0f, 0x0001020304050607, 0x08090a0b0c0d0e0f)
    ensures Rounds(u, 0, 6)
         == State(0x5ab80abab31746e0, 0xca48aec3df47d47b, 0x8126642d20c53c8f, 0x3a5b4e375730f612, 0xea5fe10b10d383bb)
  {
    hide Rounds, RoundConstant;
    Constants();
    NoRounds(u, 0);
    var t := Rounds(u, 0, 0);
    t := Step(u, 0, 0, t, 0xf0,
      State(0xe94618fea85c8f8e, 0x88417420cb2db357, 0x3fffffffffffff74, 0xbc185427038300f0, 0x1d1c1c1e181c1c1c));
    t := Step(u, 0, 1, t, 0xe1,
      State(0x3498e1ec4cdb4952, 0x2011aa1dc3ca4481, 0x28c2d7d459e5be15, 0x7c7942682ebe57de, 0xe6ff6b5776c7da4c));
    t := Step(u, 0, 2, t, 0xd2,
      State(0x8414bef0c2779330, 0x77f50ba06d6512a3, 0x2aa9541d2b8f0d53, 0x48aa5c75017ee1f3, 0x002ff8cd6755f585));
    t := Step(u, 0, 3, t, 0xc3,
      State(0xe6ee74eda90e8f61, 0xa1d364f518e39fc2, 0xd17f98ac9be2dd7f, 0x448f5bd9015f7d6d, 0x4f201960642f78aa));
    t := Step(u, 0, 4, t, 0xb4,
      State(0x3c27a95888b149b4, 0x5d0b3d582ac4db63, 0x145b4e4b0cd2993b, 0x021315e702366522, 0xe113e74a04dcb6fd));
    t := Step(u, 0, 5, t, 0xa5,
      State(0x5ab80abab31746e0, 0xca48aec3df47d47b, 0x8126642d20c53c8f, 0x3a5b4e375730f612, 0xea5fe10b10d383bb));
  }

  /** The initialisation all three share. */
  lemma Initialised(u: State)
    requires u
         == State(0x80400c0600000000, 0x0001020304050607, 0x08090a0b0c0d0e0f, 0x0001020304050607, 0x08090a0b0c0d0e0f)
    ensures Permute(u, 12)
         == State(0xbc830fbef3a1651b, 0x487a66865036b909, 0xa031b0c5810c1cd6, 0xdd7de52387752410, 0x931e1f65d25872e8)
  {
    hide Rounds, RoundConstant, Permute;
    Constants();
    InitialisedHalf(u);
    var t := Rounds(u, 0, 6);
    t := Step(u, 0, 6, t, 0x96,
      State(0x309fc8b88468f5ff, 0x89e06d6bdd3d66b0, 0x9f0d0845e4e3e576, 0xbcf3d9206edf86d6, 0x3635421a231aa317));
    t := Step(u, 0, 7, t, 0x87,
      State(0x2ee351308ef52d6e, 0x21c798cee68bb309, 0xe1318ecd0bad7616, 0xb8c6e4220e44007a, 0x980b178d1b6256a5));
    t := Step(u, 0, 8, t, 0x78,
      State(0x53e2f696dfd5611f, 0xb3160bd8c362d72f, 0xd47c84a0460937a3, 0x956e14c9ef13379e, 0x69326851c2506e47));
    t := Step(u, 0, 9, t, 0x69,
      State(0xddf4c17b84672ecc, 0xcd9bf1946db2c6c4, 0x670580be9a552dab, 0x9aaf18b03bd10b42, 0x41d759bf11c167d3));
    t := Step(u, 0, 10, t, 0x5a,
      State(0x0bb0fb9bfe862dd7, 0xabb2edf4208ba928, 0xf279ef08643429b7, 0x4d8bd24814ec4d01, 0x3674e02a54499b95));
    t := Step(u, 0, 11, t, 0x4b,
      State(0xbc830fbef3a1651b, 0x487a66865036b909, 0xa031b0c5810c1cd6, 0xdd7de52387752410, 0x931e1f65d25872e8));
    PermuteIs(u, 12);
  }

  lemma EmptyFinalisedHalf(u: State)
    requires u
         == State(0x3c830fbef3a1651b, 0x487b64855433bf0e, 0xa838bace8d0112d9, 0xdd7ce72083702217, 0x9b17156ede557ce6)
    ensures Rounds(u, 0, 6)
         == State(0xb1357306d446783e, 0x484d6c1365aa2f5f, 0x9fee7eb788a0c357, 0xeca361628fc85bbf, 0xa34f46596b00df2b)
  {
    hide Rounds, RoundConstant;
    Constants();
    NoRounds(u, 0);
    var t := Rounds(u, 0, 0);
    t := Step(u, 0, 0, t, 0xf0,
      State(0xc89fe513b249b90f, 0xbba8e389e21f255a, 0xf31655c0ae47291c, 0xc0e1c4e95b04e463, 0xcd9a041be2bbb549));
    t := Step(u, 0, 1, t, 0xe1,
      State(0x8c5d447c6de46f85, 0x4a73b6ef321a3a9e, 0xa59f80508adee0f1, 0x1da4414eb0c767a6, 0xeb31bccfe4defd33));
    t := Step(u, 0, 2, t, 0xd2,
      State(0xbe19444161ea1a10, 0x446cb9f7bbec0349, 0x44cb46f686beed0f, 0xc9a18fa8f02909fd, 0x23c8fae3b22ac285));
    t := Step(u, 0, 3, t, 0xc3,
      State(0x574c684d3d12a055, 0x6a94607c8c8efba3, 0x58ec0921d7fa858a, 0x1b5fc287890bb4ec, 0xc424e9124eaeb51a));
    t := Step(u, 0, 4, t, 0xb4,
      State(0xfd10c525ddeaa9de, 0xa450ad746fc318c2, 0xcd52fe9558b0fe49, 0xd80935c385aabdfc, 0xc02546d78a6b5325));
    t := Step(u, 0, 5, t, 0xa5,
      State(0xb1357306d446783e, 0x484d6c1365aa2f5f, 0x9fee7eb788a0c357, 0xeca361628fc85bbf, 0xa34f46596b00df2b));
  }

  /** Without data and plaintext. */
  lemma EmptyFinalised(u: State)
    requires u
         == State(0x3c830fbef3a1651b, 0x487b64855433bf0e, 0xa838bace8d0112d9, 0xdd7ce72083702217, 0x9b17156ede557ce6)
    ensures Permute(u, 12)
         == State(0x318951aa8731d1ae, 0xdcd1ad55dc02c52c, 0xa9bdc1fa5ebde2cb, 0xe354179c2d2c17f0, 0x9cc21e39ac1d3485)
  {
    hide Rounds, RoundConstant, Permute;
    Constants();
    EmptyFinalisedHalf(u);
    var t := Rounds(u, 0, 6);
    t := Step(u, 0, 6, t, 0x96,
      State(0x6d368c3e992a7526, 0x9d9c274f0685aee1, 0x3a34dd4e42448a8c, 0x2844662d4dcfedc6, 0x26348da3bc2bb970));
    t := Step(u, 0, 7, t, 0x87,
      State(0xa69cce97684acd96, 0xe7f8b85a4f660383, 0x642dd473febdd59b, 0x37424655d81fc41f, 0x53a0a46c614bc09d));
    t := Step(u, 0, 8, t, 0x78,
      State(0xa25b98191c837988, 0xb9a2c7c4a7618a67, 0xde3d02cea16bad34, 0x1549fae32c5c1ef2, 0x7e11afde8dff7337));
    t := Step(u, 0, 9, t, 0x69,
      State(0x25a7dac8e870eff9, 0x7e271ad2ec393e94, 0x8881e0e2619cbfc7, 0x9c5cef53ba5c6d75, 0xdeaeb5613e08d414));
    t := Step(u, 0, 10, t, 0x5a,
      State(0xa73f1b1116c87677, 0x52512b084d694504, 0xb729734f70aef236, 0x920d3c2ac32c3a47, 0x940fc82ad5ae7c2e));
    t := Step(u, 0, 11, t, 0x4b,
      State(0x318951aa8731d1ae, 0xdcd1ad55dc02c52c, 0xa9bdc1fa5ebde2cb, 0xe354179c2d2c17f0, 0x9cc21e39ac1d3485));
    PermuteIs(u, 12);
  }

  /** One byte of data. */
  lemma ByteAbsorbed(u: State)
    requires u
         == State(0xbc030fbef3a1651b, 0x487a66865036b909, 0xa031b0c5810c1cd6, 0xdd7ce72083702217, 0x9b17156ede557ce7)
    ensures Permute(u, 6)
         == State(0xbd4742c7de2afc51, 0x3a2a1a9d64cb3121, 0xb628e9490454eabe, 0xd767135f5e8fdb9f, 0x9349b070162bf55b)
  {
    hide Rounds, RoundConstant, Permute;
    Constants();
    NoRounds(u, 6);
    var t := Rounds(u, 6, 6);
    t := Step(u, 6, 6, t, 0x96,
      State(0xe8c39923b3011aec, 0x6778b1c54d6b2427, 0x473a79ec826b0564, 0x57fcaaa7550aea0b, 0xc81b069be5bab1c7));
    t := Step(u, 6, 7, t, 0x87,
      State(0x520676d547e3661c, 0x37ffd6c649285e76, 0x013fd2e6e229173f, 0xe886f39983a5682e, 0x75aafb4eaeefdcb1));
    t := Step(u, 6, 8, t, 0x78,
      State(0x25cb5468b1bf352b, 0xd2fdec4fbf3f4023, 0x4d6c559ba10ce3f9, 0x5d83759e44606774, 0x5ff3115e6df69a81));
    t := Step(u, 6, 9, t, 0x69,
      State(0xad2f5a713d35c9ee, 0x0dbe77ea814dc54b, 0xe6991c478356cdb8, 0x04628bba8e3bee9d, 0x2f35f74ee2f4a669));
    t := Step(u, 6, 10, t, 0x5a,
      State(0x42111a67cef9c952, 0xa36eb85ca59fad1e, 0xf8d4279d89c40f71, 0x7122a17123570795, 0x4488a98c5a0936ba));
    t := Step(u, 6, 11, t, 0x4b,
      State(0xbd4742c7de2afc51, 0x3a2a1a9d64cb3121, 0xb628e9490454eabe, 0xd767135f5e8fdb9f, 0x9349b070162bf55b));
    PermuteIs(u, 6);
  }

  lemma ByteFinalisedHalf(u: State)
    requires u
         == State(0xbdc742c7de2afc51, 0x3a2b189e60ce3726, 0xbe21e3420859e4b1, 0xd767135f5e8fdb9f, 0x9349b070162bf55a)
    ensures Rounds(u, 0, 6)
         == State(0x7afbac590965cde7, 0x0d4f79af80c1d496, 0x9cf5aa3e8ca9c36e, 0x3c39207e413d05e0, 0xd157731463b6a73b)
  {
    hide Rounds, RoundConstant;
    Constants();
    NoRounds(u, 0);
    var t := Rounds(u, 0, 0);
    t := Step(u, 0, 0, t, 0xf0,
      State(0x2319dfbf773b69ae, 0x08adefd2e9e6c140, 0x27ec809252b12c97, 0x83a25d8736cd78e5, 0x0513817d5610cb05));
    t := Step(u, 0, 1, t, 0xe1,
      State(0x52ee511baaa45dd0, 0xecd4059715e42cbb, 0x19aa24e79af63b6a, 0x35b6caefbb04da89, 0x3a5c59e82d0ecb7b));
    t := Step(u, 0, 2, t, 0xd2,
      State(0x9ad444497f4f443f, 0x2dfb6b115bb0f493, 0x38ae0f76f34782ef, 0x3382831bd347bd3d, 0x4f7aec33700772da));
    t := Step(u, 0, 3, t, 0xc3,
      State(0xb997a1dc3cc193f6, 0xb7061a2a2fd0a504, 0xff20c7baad508d6d, 0xe733949811aa7cb2, 0xaaf986765abdbb7c));
    t := Step(u, 0, 4, t, 0xb4,
      State(0x9061f71f11bf7b4e, 0x2027357cf626e92f, 0x5a65f48d8802d708, 0x8285cac9d1dfd477, 0x0b38d55afb66894a));
    t := Step(u, 0, 5, t, 0xa5,
      State(0x7afbac590965cde7, 0x0d4f79af80c1d496, 0x9cf5aa3e8ca9c36e, 0x3c39207e413d05e0, 0xd157731463b6a73b));
  }

  /** One byte of plaintext. */
  lemma ByteFinalised(u: State)
    requires u
         == State(0xbdc742c7de2afc51, 0x3a2b189e60ce3726, 0xbe21e3420859e4b1, 0xd767135f5e8fdb9f, 0x9349b070162bf55a)
    ensures Permute(u, 12)
         == State(0x406b2a7e8fbf36e1, 0xf80e4a49c56c2554, 0xf099626a1515a5bd, 0x4103b50473593a12, 0x52ed9dbf37f53aea)
  {
    hide Rounds, RoundConstant, Permute;
    Constants();
    ByteFinalisedHalf(u);
    var t := Rounds(u, 0, 6);
    t := Step(u, 0, 6, t, 0x96,
      State(0x9ed9620ec2b00ebf, 0xf18c7f02da66f4bb, 0xd23ecd2402dbbae5, 0xb6560a838b7b0aac, 0xbeae6cb45f3ab60d));
    t := Step(u, 0, 7, t, 0x87,
      State(0x811a63600b5af1ac, 0x416a5f7bbf026ef5, 0xa1c429bc7f2e0fa0, 0xdcd7d849e203e47c, 0x1309e5e5ad650b52));
    t := Step(u, 0, 8, t, 0x78,
      State(0x196bf8c84a33cbac, 0xf639dec3055dc32a, 0x52041c605b26816f, 0xc0fa4291c1248d8d, 0xba803b6a6d0d7dcb));
    t := Step(u, 0, 9, t, 0x69,
      State(0x1a206550bde97e8e, 0x1e467c2fa34016b2, 0x94a40e3d117d1c6f, 0xf31085757bc0f1cc, 0x6f6085297e27551e));
    t := Step(u, 0, 10, t, 0x5a,
      State(0x90b3641710bd0e98, 0x097425b22dd88b25, 0xec26bd2078309e1a, 0x78fbb982d7f6070d, 0x5a4803bae9e7449f));
    t := Step(u, 0, 11, t, 0x4b,
      State(0x406b2a7e8fbf36e1, 0xf80e4a49c56c2554, 0xf099626a1515a5bd, 0x4103b50473593a12, 0x52ed9dbf37f53aea));
    PermuteIs(u, 12);
  }

  /** Nine bytes of data: the full block. */
  lemma FirstAbsorbed(u: State)
    requires u
         == State(0xbc820dbdf7a4631c, 0x487a66865036b909, 0xa031b0c5810c1cd6, 0xdd7ce72083702217, 0x9b17156ede557ce7)
    ensures Permute(u, 6)
         == State(0xd015c632823325af, 0x840b85e4356c5f73, 0xeda0de0887360c6f, 0x9397b9cdf9fc944d, 0xcb32d71ab8f0d738)
  {
    hide Rounds, RoundConstant, Permute;
    Constants();
    NoRounds(u, 6);
    var t := Rounds(u, 6, 6);
    t := Step(u, 6, 6, t, 0x96,
      State(0x889239529f103c7a, 0x65f9a9d26747101c, 0x473a79ec826b0564, 0x56bf0ae6554a6a0c, 0xcb1b069de13eb9c7));
    t := Step(u, 6, 7, t, 0x87,
      State(0x231965dc32bc7277, 0x112aac8945fcb5c8, 0xf372ce9b857f5bcd, 0x4b586f84fdacd112, 0x1b7dbf928783420a));
    t := Step(u, 6, 8, t, 0x78,
      State(0x1bb7b0a0d3fcc19a, 0x70742a66270e16e6, 0x237503375f356601, 0xdf40861b82f4cf1b, 0x2a10dcf558b25f4f));
    t := Step(u, 6, 9, t, 0x69,
      State(0x79e5afc491eb338e, 0xeae9a2a596837bfe, 0x9caa73569b5acad3, 0x2875b87025f281da, 0x3e157b355ce09d7a));
    t := Step(u, 6, 10, t, 0x5a,
      State(0x3de6acaf1aeb788d, 0x34b2939ee202a780, 0x721caa39599de2b6, 0xf888d36a6684fc6b, 0x4ba0fba53c1a5dc1));
    t := Step(u, 6, 11, t, 0x4b,
      State(0xd015c632823325af, 0x840b85e4356c5f73, 0xeda0de0887360c6f, 0x9397b9cdf9fc944d, 0xcb32d71ab8f0d738));
    PermuteIs(u, 6);
  }

  /** Nine bytes of data: the padded block. */
  lemma LastAbsorbed(u: State)
    requires u
         == State(0xd895c632823325af, 0x840b85e4356c5f73, 0xeda0de0887360c6f, 0x9397b9cdf9fc944d, 0xcb32d71ab8f0d738)
    ensures Permute(u, 6)
         == State(0x322400669db9d2fb, 0x95644d2d78707d45, 0x75c7c82a10a20ada, 0x82dfcbe14fca292f, 0x6a309f2678546af2)
  {
    hide Rounds, RoundConstant, Permute;
    Constants();
    NoRounds(u, 6);
    var t := Rounds(u, 6, 6);
    t := Step(u, 6, 6, t, 0x96,
      State(0x5e30354cc27dd0ab, 0x87532ab9b60850bf, 0x26374089ee418f5a, 0x36482a396d34d58a, 0xfeb6a1e06846587c));
    t := Step(u, 6, 7, t, 0x87,
      State(0x64c9f811ad731267, 0xa6d48250bb57195c, 0xfb632a584a91ec3e, 0xd98b8c958ea70086, 0x963847e56e37efb5));
    t := Step(u, 6, 8, t, 0x78,
      State(0xaac7ce7ef683b542, 0x9713fcf092381c6e, 0xa4d5fe8e8485b0a9, 0x2c36594bebce8935, 0x8d4ce511a6973304));
    t := Step(u, 6, 9, t, 0x69,
      State(0x98b6ea9c5181ed1a, 0x5f573e66238a3f6c, 0xaefc303f5c4f9c7c, 0x66b13e63175c3eea, 0x666f04ca5677f469));
    t := Step(u, 6, 10, t, 0x5a,
      State(0xf81150d6f894fecf, 0x2871a325c3220295, 0xd92fe27d1b15349c, 0x7b671533ed17c075, 0x5b6b0b2a34614743));
    t := Step(u, 6, 11, t, 0x4b,
      State(0x322400669db9d2fb, 0x95644d2d78707d45, 0x75c7c82a10a20ada, 0x82dfcbe14fca292f, 0x6a309f2678546af2));
    PermuteIs(u, 6);
  }

  /** Nine bytes of plaintext: the full block. */
  lemma FirstEncrypted(u: State)
    requires u
         == State(0x3225026599bcd4fc, 0x95644d2d78707d45, 0x75c7c82a10a20ada, 0x82dfcbe14fca292f, 0x6a309f2678546af3)
    ensures Permute(u, 6)
         == State(0xcc69121e79f7931b, 0xe642f65a73bd560a, 0x59c1bc3db746f9f1, 0xd8dcda5d461a9da0, 0xf4d5469ce9b6a8aa)
  {
    hide Rounds, RoundConstant, Permute;
    Constants();
    NoRounds(u, 6);
    var t := Rounds(u, 6, 6);
    t := Step(u, 6, 6, t, 0x96,
      State(0x2c818abcbe417deb, 0xcbe2eb7aa7dbde74, 0xd51fa83a0e39c81d, 0x7770cdf246a9106b, 0x20c3cdc3b7e7d913));
    t := Step(u, 6, 7, t, 0x87,
      State(0xc3be4e2f0fb60939, 0x48948dfced92d07b, 0x16c764136f6bdc81, 0x519c2ae84d06eb39, 0x759004a88bf3b58e));
    t := Step(u, 6, 8, t, 0x78,
      State(0x2d9274aed6643023, 0x5295ffbff8ae7390, 0xa96cab50c3f3cb99, 0x5f1d20176edd362e, 0x0e1221e1a18f9e97));
    t := Step(u, 6, 9, t, 0x69,
      State(0x2ed2b9efd30a1d83, 0x7e24f700198e3a09, 0x3e16ed23a6662bb5, 0x30ea7baab0daf80e, 0xd03b356c1758d91f));
    t := Step(u, 6, 10, t, 0x5a,
      State(0x462e1c02e9fb9380, 0x6058df4551be8282, 0x61cde2d205804730, 0xa5b08ac5c99610cf, 0x224b90b0bb026db8));
    t := Step(u, 6, 11, t, 0x4b,
      State(0xcc69121e79f7931b, 0xe642f65a73bd560a, 0x59c1bc3db746f9f1, 0xd8dcda5d461a9da0, 0xf4d5469ce9b6a8aa));
    PermuteIs(u, 6);
  }

  lemma NineFinalisedHalf(u: State)
    requires u
         == State(0xc4e9121e79f7931b, 0xe643f45977b8500d, 0x51c8b636bb4bf7fe, 0xd8dcda5d461a9da0, 0xf4d5469ce9b6a8aa)
    ensures Rounds(u, 0, 6)
         == State(0xd9c29ea3d31606b0, 0x2eaa68dd3fcbe539, 0x575583ad08734d70, 0xf39b8759b88709c8, 0x744a7316c010165b)
  {
    hide Rounds, RoundConstant;
    Constants();
    NoRounds(u, 0);
    var t := Rounds(u, 0, 0);
    t := Step(u, 0, 0, t, 0xf0,
      State(0x17a6481fa2b7d07a, 0x2861882e3d3b329f, 0x83feb37c9596e56e, 0x557829b67158ca9a, 0xabfaa2db7af178f2));
    t := Step(u, 0, 1, t, 0xe1,
      State(0xfdf375834a1d8e0a, 0x61b08b40ab646dd5, 0x3e68ec8de27d58aa, 0x1c19d44df044606a, 0xa2c984019f32d0fa));
    t := Step(u, 0, 2, t, 0xd2,
      State(0xc4c6803a7bcc5570, 0xb9c3d0f560e4fe2a, 0x0b9fca4b2fd926c8, 0x2858c8d32fee01a6, 0xb34e61f09773d49b));
    t := Step(u, 0, 3, t, 0xc3,
      State(0xb42913781d34ccdd, 0x0faf202d320b2386, 0x2e8db140343945eb, 0x3c3fe7ec0c4fef2f, 0xe22f7cb10b25bab7));
    t := Step(u, 0, 4, t, 0xb4,
      State(0xd96cf33dc2093f84, 0x0041b6344d903578, 0xcac0b8180870fb4b, 0x43aea35f1842e48c, 0x52855865db454879));
    t := Step(u, 0, 5, t, 0xa5,
      State(0xd9c29ea3d31606b0, 0x2eaa68dd3fcbe539, 0x575583ad08734d70, 0xf39b8759b88709c8, 0x744a7316c010165b));
  }

  /** Nine bytes of plaintext: the padded block. */
  lemma NineFinalised(u: State)
    requires u
         == State(0xc4e9121e79f7931b, 0xe643f45977b8500d, 0x51c8b636bb4bf7fe, 0xd8dcda5d461a9da0, 0xf4d5469ce9b6a8aa)
    ensures Permute(u, 12)
         == State(0x328da840f46fcaf9, 0x4e9e9a17c0963c5e, 0x126580458f621e75, 0xe2232205c6a72f4c, 0x8d534d4177cdcf8c)
  {
    hide Rounds, RoundConstant, Permute;
    Constants();
    NineFinalisedHalf(u);
    var t := Rounds(u, 0, 6);
    t := Step(u, 0, 6, t, 0x96,
      State(0x13f57f5006d30367, 0x5086e5b4ab8df2b2, 0x8d69575f6a5dbcae, 0xa6b3cd8ca1135a96, 0x81523c921b34be8c));
    t := Step(u, 0, 7, t, 0x87,
      State(0x2353752127fc356f, 0x74334251cf297805, 0x827502712e9eb38f, 0x47d2be2b34a2df9d, 0xe6228053492c09ec));
    t := Step(u, 0, 8, t, 0x78,
      State(0xddf5c3be27b8cde3, 0xb70c9eeacc7464a2, 0xcbf306b6c1bb3e8a, 0xe8a6f8ccd78261e6, 0x462f8bca35962047));
    t := Step(u, 0, 9, t, 0x69,
      State(0xb17702bd3216ef39, 0xd113a53fa0946e82, 0xb999f363bc7e65f6, 0xa073eaf927387e7e, 0x0b8fdc67e7dd8fd2));
    t := Step(u, 0, 10, t, 0x5a,
      State(0xfe4b128752cd0953, 0xd312c3d0308886b9, 0x14f6858126b70e2c, 0x0dc85401669784e0, 0x6eda916b414563d8));
    t := Step(u, 0, 11, t, 0x4b,
      State(0x328da840f46fcaf9, 0x4e9e9a17c0963c5e, 0x126580458f621e75, 0xe2232205c6a72f4c, 0x8d534d4177cdcf8c));
    PermuteIs(u, 12);
  }

  // ------------------------------------------------------------------------------------------
  // The three encryptions
  // ------------------------------------------------------------------------------------------

  /** The key, and the nonce. */
  const KEY: Bytes := [0, 1, 2, 3, 4, 5, 6, 7, 8, 9, 10, 11, 12, 13, 14, 15]

  lemma KeyWords()
    ensures KeyOf(KEY) == Key(0x0001020304050607, 0x08090a0b0c0d0e0f)
    ensures Load(KEY[..8]) == 0x0001020304050607 && Load(KEY[8..]) == 0x08090a0b0c0d0e0f
  {
    hide Load, StoreLow, Append8;
    assert KEY[..8] == [0, 1, 2, 3, 4, 5, 6, 7] && KEY[8..] == [8, 9, 10, 11, 12, 13, 14, 15];
    FirstWord();
    SecondWord();
  }

  lemma FirstWord()
    ensures Load([0, 1, 2, 3, 4, 5, 6, 7]) == 0x0001020304050607
  {
    hide Load, StoreLow;
    WordOf([0, 1, 2, 3, 4, 5, 6, 7], 0x0001020304050607);
  }

  lemma SecondWord()
    ensures Load([8, 9, 10, 11, 12, 13, 14, 15]) == 0x08090a0b0c0d0e0f
  {
    hide Load, StoreLow;
    WordOf([8, 9, 10, 11, 12, 13, 14, 15], 0x08090a0b0c0d0e0f);
  }

  lemma SharedStart()
    ensures Initial(KeyOf(KEY), KEY)
         == State(0xbc830fbef3a1651b, 0x487a66865036b909, 0xa031b0c5810c1cd6, 0xdd7ce72083702217, 0x9b17156ede557ce7)
  {
    hide Load, Permute;
    KeyWords();
    Initialised(State(IV, 0x0001020304050607, 0x08090a0b0c0d0e0f, 0x0001020304050607, 0x08090a0b0c0d0e0f));
  }

  /** The two words of a tag. */
  lemma TagIs(k: Key, s: State, f: State, a: Bytes, b: Bytes)
    requires f == Permute(s.(x1 := Xor(s.x1, k.k0), x2 := Xor(s.x2, k.k1)), 12)
    requires Store(Xor(f.x3, k.k0)) == a && Store(Xor(f.x4, k.k1)) == b
    ensures Tag(k, s) == a + b
  {
  }

  /** Nothing to encrypt. */
  lemma EmptyFinal()
    ensures var s := Start(KeyOf(KEY), KEY, []);
            && Cipher(s, []) == []
            && Final(s, []) ==
               State(0x3c830fbef3a1651b, 0x487a66865036b909, 0xa031b0c5810c1cd6, 0xdd7ce72083702217, 0x9b17156ede557ce6)
  {
    hide Load, Permute, StoreLow, Initial, Absorb, Cipher, Final;
    SharedStart();
    var s := Start(KeyOf(KEY), KEY, []);
    var none: Bytes := [];
    CipherParts(s, none, 0);
    assert none[..0] == none && none[0..] == none;
    AbsorbNothing(s);
    assert Pad([]) == [0x80, 0x00, 0x00, 0x00, 0x00, 0x00, 0x00, 0x00];
    WordOf([0x80, 0x00, 0x00, 0x00, 0x00, 0x00, 0x00, 0x00], 0x8000000000000000);
  }

  lemma EmptyEncrypted()
    ensures Encrypt(KEY, KEY, [], [])
         == Sealed([], [0xe3, 0x55, 0x15, 0x9f, 0x29, 0x29, 0x11, 0xf7]
           + [0x94, 0xcb, 0x14, 0x32, 0xa0, 0x10, 0x3a, 0x8a])
  {
    hide KeyOf, Start, Cipher, Final, Tag, Permute;
    EmptyFinal();
    var f := Final(Start(KeyOf(KEY), KEY, []), []);
    var t := f.(x1 := Xor(f.x1, 0x0001020304050607), x2 := Xor(f.x2, 0x08090a0b0c0d0e0f));
    EmptyFinalised(t);
    KeyWords();
    var a, b := [0xe3, 0x55, 0x15, 0x9f, 0x29, 0x29, 0x11, 0xf7], [0x94, 0xcb, 0x14, 0x32, 0xa0, 0x10, 0x3a, 0x8a];
    WordOf(a, 0xe355159f292911f7);
    WordOf(b, 0x94cb1432a0103a8a);
    TagIs(KeyOf(KEY), f, Permute(t, 12), a, b);
  }

  /** One byte of data, one byte of plaintext. */
  lemma ByteStart()
    ensures Start(KeyOf(KEY), KEY, [0])
         == State(0xbd4742c7de2afc51, 0x3a2a1a9d64cb3121, 0xb628e9490454eabe, 0xd767135f5e8fdb9f, 0x9349b070162bf55a)
  {
    hide Load, Permute, StoreLow, Initial, Absorb;
    SharedStart();
    var s, none: Bytes := Initial(KeyOf(KEY), KEY), [];
    AbsorbNothing(s);
    AbsorbNext(s, none, Pad([0]));
    assert none + Pad([0]) == Pad([0]) == [0x00, 0x80, 0x00, 0x00, 0x00, 0x00, 0x00, 0x00];
    WordOf([0x00, 0x80, 0x00, 0x00, 0x00, 0x00, 0x00, 0x00], 0x0080000000000000);
    ByteAbsorbed(XorRate(s, 0x0080000000000000));
  }

  lemma ByteFinal()
    ensures var s := Start(KeyOf(KEY), KEY, [0]);
            && Cipher(s, [0]) == [0xbd]
            && Final(s, [0]) ==
               State(0xbdc742c7de2afc51, 0x3a2a1a9d64cb3121, 0xb628e9490454eabe, 0xd767135f5e8fdb9f, 0x9349b070162bf55a)
  {
    hide Load, Permute, StoreLow, Start, Absorb, Cipher, Final;
    ByteStart();
    var s, p: Bytes := Start(KeyOf(KEY), KEY, [0]), [0];
    CipherParts(s, p, 0);
    assert p[..0] == [] && p[0..] == p;
    AbsorbNothing(s);
    assert Pad(p) == [0x00, 0x80, 0x00, 0x00, 0x00, 0x00, 0x00, 0x00];
    WordOf([0x00, 0x80, 0x00, 0x00, 0x00, 0x00, 0x00, 0x00], 0x0080000000000000);
    WordOf([0xbd, 0xc7, 0x42, 0xc7, 0xde, 0x2a, 0xfc, 0x51], 0xbdc742c7de2afc51);
  }

  lemma ByteEncrypted()
    ensures Encrypt(KEY, KEY, [0], [0])
         == Sealed([0xbd], [0x41, 0x02, 0xb7, 0x07, 0x77, 0x5c, 0x3c, 0x15]
           + [0x5a, 0xe4, 0x97, 0xb4, 0x3b, 0xf8, 0x34, 0xe5])
  {
    hide KeyOf, Start, Cipher, Final, Tag, Permute;
    ByteFinal();
    var f := Final(Start(KeyOf(KEY), KEY, [0]), [0]);
    var t := f.(x1 := Xor(f.x1, 0x0001020304050607), x2 := Xor(f.x2, 0x08090a0b0c0d0e0f));
    ByteFinalised(t);
    KeyWords();
    var a, b := [0x41, 0x02, 0xb7, 0x07, 0x77, 0x5c, 0x3c, 0x15], [0x5a, 0xe4, 0x97, 0xb4, 0x3b, 0xf8, 0x34, 0xe5];
    WordOf(a, 0x4102b707775c3c15);
    WordOf(b, 0x5ae497b43bf834e5);
    TagIs(KeyOf(KEY), f, Permute(t, 12), a, b);
  }

  /** Nine bytes of data, nine bytes of plaintext. */
  const NINE: Bytes := [0, 1, 2, 3, 4, 5, 6, 7, 8]

  lemma NineParts()
    ensures NINE[..8] == [0, 1, 2, 3, 4, 5, 6, 7] && NINE[8..] == [8]
    ensures Pad(NINE) == NINE[..8] + Pad([8]) && Pad([8]) == [0x08, 0x80, 0x00, 0x00, 0x00, 0x00, 0x00, 0x00]
    ensures Load(NINE[..8]) == 0x0001020304050607 && Load(Pad([8])) == 0x0880000000000000
  {
    hide Load, StoreLow;
    FirstWord();
    WordOf([0x08, 0x80, 0x00, 0x00, 0x00, 0x00, 0x00, 0x00], 0x0880000000000000);
  }

  lemma NineStart()
    ensures Start(KeyOf(KEY), KEY, NINE)
         == State(0x322400669db9d2fb, 0x95644d2d78707d45, 0x75c7c82a10a20ada, 0x82dfcbe14fca292f, 0x6a309f2678546af3)
  {
    hide Load, Permute, Initial, Absorb, Pad;
    SharedStart();
    NineParts();
    var s, none: Bytes := Initial(KeyOf(KEY), KEY), [];
    AbsorbNothing(s);
    AbsorbNext(s, none, NINE[..8]);
    assert none + NINE[..8] == NINE[..8];
    AbsorbNext(s, NINE[..8], Pad([8]));
    var t := XorRate(s, 0x0001020304050607);
    FirstAbsorbed(t);
    LastAbsorbed(XorRate(Permute(t, 6), 0x0880000000000000));
  }

  lemma NineFinal()
    ensures var s := Start(KeyOf(KEY), KEY, NINE);
            && Cipher(s, NINE) == [0x32, 0x25, 0x02, 0x65, 0x99, 0xbc, 0xd4, 0xfc] + [0xc4]
            && Final(s, NINE) ==
               State(0xc4e9121e79f7931b, 0xe642f65a73bd560a, 0x59c1bc3db746f9f1, 0xd8dcda5d461a9da0, 0xf4d5469ce9b6a8aa)
  {
    hide Load, Permute, StoreLow, Start, Absorb, Cipher, Final, Pad, CipherBlocks;
    NineStart();
    NineParts();
    var s, none: Bytes := Start(KeyOf(KEY), KEY, NINE), [];
    CipherParts(s, NINE, 8);
    AbsorbNothing(s);
    AbsorbNext(s, none, NINE[..8]);
    assert none + NINE[..8] == NINE[..8];
    FirstEncrypted(XorRate(s, 0x0001020304050607));
    WordOf([0x32, 0x25, 0x02, 0x65, 0x99, 0xbc, 0xd4, 0xfc], 0x3225026599bcd4fc);
    WordOf([0xc4, 0xe9, 0x12, 0x1e, 0x79, 0xf7, 0x93, 0x1b], 0xc4e9121e79f7931b);
  }

  lemma NineEncrypted()
    ensures Encrypt(KEY, KEY, NINE, NINE)
         == Sealed([0x32, 0x25, 0x02, 0x65, 0x99, 0xbc, 0xd4, 0xfc] + [0xc4],
         [0xe2, 0x22, 0x20, 0x06, 0xc2, 0xa2, 0x29, 0x4b]
           + [0x85, 0x5a, 0x47, 0x4a, 0x7b, 0xc0, 0xc1, 0x83])
  {
    hide KeyOf, Start, Cipher, Final, Tag, Permute;
    NineFinal();
    var f := Final(Start(KeyOf(KEY), KEY, NINE), NINE);
    var t := f.(x1 := Xor(f.x1, 0x0001020304050607), x2 := Xor(f.x2, 0x08090a0b0c0d0e0f));
    NineFinalised(t);
    KeyWords();
    var a, b := [0xe2, 0x22, 0x20, 0x06, 0xc2, 0xa2, 0x29, 0x4b], [0x85, 0x5a, 0x47, 0x4a, 0x7b, 0xc0, 0xc1, 0x83];
    WordOf(a, 0xe2222006c2a2294b);
    WordOf(b, 0x855a474a7bc0c183);
    TagIs(KeyOf(KEY), f, Permute(t, 12), a, b);
  }
}
