/** The digest of "abc" with all the intermediate values on the way: a fixed point for every rotation, constant,
    index and order of words in `Sha256Spec`. */
module Sha256Example {
  import opened BigEndianNumbers
  import opened Bytes
  import opened Sha256Spec

  function Of(a: bv32, b: bv32, c: bv32, d: bv32, e: bv32, f: bv32, g: bv32, h: bv32): Vars {
    Vars(Word(a), Word(b), Word(c), Word(d), Word(e), Word(f), Word(g), Word(h))
  }

  // ---------- the numbers ----------

  predicate Extended(w2: bv32, w7: bv32, w15: bv32, w16: bv32, w: bv32) {
    Extend(Word(w2), Word(w7), Word(w15), Word(w16)) == Word(w)
  }

  /** Four words z more, after sixteen of which x are the first and y the second eight. */
  predicate FourExtended(x0: bv32, x1: bv32, x2: bv32, x3: bv32, x4: bv32, y1: bv32, y2: bv32, y3: bv32, y4: bv32,
                         y6: bv32, y7: bv32, z0: bv32, z1: bv32, z2: bv32, z3: bv32)
  {
    && Extended(y6, y1, x1, x0, z0) && Extended(y7, y2, x2, x1, z1) && Extended(z0, y3, x3, x2, z2)
    && Extended(z1, y4, x4, x3, z3)
  }

  /** And four words more. */
  predicate FourBehind(x4: bv32, x5: bv32, x6: bv32, x7: bv32, y0: bv32, y5: bv32, y6: bv32, y7: bv32, z0: bv32,
                       z2: bv32, z3: bv32, z4: bv32, z5: bv32, z6: bv32, z7: bv32)
  {
    && Extended(z2, y5, x5, x4, z4) && Extended(z3, y6, x6, x5, z5) && Extended(z4, y7, x7, x6, z6)
    && Extended(z5, z0, y0, x7, z7)
  }

  /** A round that makes a new a and a new e. */
  predicate Makes(a: bv32, b: bv32, c: bv32, d: bv32, e: bv32, f: bv32, g: bv32, h: bv32, k: bv32, w: bv32,
                  newA: bv32, newE: bv32)
  {
    Round(Of(a, b, c, d, e, f, g, h), Word(k), Word(w)) == Of(newA, a, b, c, newE, e, f, g)
  }

  predicate FourRounds(a: bv32, b: bv32, c: bv32, d: bv32, e: bv32, f: bv32, g: bv32, h: bv32,
                       k0: bv32, k1: bv32, k2: bv32, k3: bv32, w0: bv32, w1: bv32, w2: bv32, w3: bv32,
                       a0: bv32, a1: bv32, a2: bv32, a3: bv32, e0: bv32, e1: bv32, e2: bv32, e3: bv32)
  {
    && Makes(a, b, c, d, e, f, g, h, k0, w0, a0, e0) && Makes(a0, a, b, c, e0, e, f, g, k1, w1, a1, e1)
    && Makes(a1, a0, a, b, e1, e0, e, f, k2, w2, a2, e2) && Makes(a2, a1, a0, a, e2, e1, e0, e, k3, w3, a3, e3)
  }

  predicate EightConstants(t: nat, k0: bv32, k1: bv32, k2: bv32, k3: bv32, k4: bv32, k5: bv32, k6: bv32, k7: bv32)
    requires t <= 56
  {
    && KAt(t) == Word(k0) && KAt(t + 1) == Word(k1) && KAt(t + 2) == Word(k2) && KAt(t + 3) == Word(k3)
    && KAt(t + 4) == Word(k4) && KAt(t + 5) == Word(k5) && KAt(t + 6) == Word(k6) && KAt(t + 7) == Word(k7)
  }

  lemma Extends2()
    ensures FourExtended(0x61626380, 0x00000000, 0x00000000, 0x00000000, 0x00000000,
                         0x00000000, 0x00000000, 0x00000000, 0x00000000, 0x00000000, 0x00000018,
                         0x61626380, 0x000f0000, 0x7da86405, 0x600003c6)
  {
  }

  lemma Behind2()
    ensures FourBehind(0x00000000, 0x00000000, 0x00000000, 0x00000000,
                       0x00000000, 0x00000000, 0x00000000, 0x00000018,
                       0x61626380, 0x7da86405, 0x600003c6, 0x3e9d7b78, 0x0183fc00, 0x12dcbfdb, 0xe2e2c38e)
  {
  }

  lemma Extends3()
    ensures FourExtended(0x00000000, 0x00000000, 0x00000000, 0x00000000, 0x00000000,
                         0x000f0000, 0x7da86405, 0x600003c6, 0x3e9d7b78, 0x12dcbfdb, 0xe2e2c38e,
                         0xc8215c1a, 0xb73679a2, 0xe5bc3909, 0x32663c5b)
  {
  }

  lemma Behind3()
    ensures FourBehind(0x00000000, 0x00000000, 0x00000000, 0x00000018,
                       0x61626380, 0x0183fc00, 0x12dcbfdb, 0xe2e2c38e,
                       0xc8215c1a, 0xe5bc3909, 0x32663c5b, 0x9d209d67, 0xec8726cb, 0x702138a4, 0xd3b7973b)
  {
  }

  lemma Extends4()
    ensures FourExtended(0x61626380, 0x000f0000, 0x7da86405, 0x600003c6, 0x3e9d7b78,
                         0xb73679a2, 0xe5bc3909, 0x32663c5b, 0x9d209d67, 0x702138a4, 0xd3b7973b,
                         0x93f5997f, 0x3b68ba73, 0xaff4ffc1, 0xf10a5c62)
  {
  }

  lemma Behind4()
    ensures FourBehind(0x3e9d7b78, 0x0183fc00, 0x12dcbfdb, 0xe2e2c38e,
                       0xc8215c1a, 0xec8726cb, 0x702138a4, 0xd3b7973b,
                       0x93f5997f, 0xaff4ffc1, 0xf10a5c62, 0x0a8b3996, 0x72af830a, 0x9409e33e, 0x24641522)
  {
  }

  lemma Extends5()
    ensures FourExtended(0xc8215c1a, 0xb73679a2, 0xe5bc3909, 0x32663c5b, 0x9d209d67,
                         0x3b68ba73, 0xaff4ffc1, 0xf10a5c62, 0x0a8b3996, 0x9409e33e, 0x24641522,
                         0x9f47bf94, 0xf0a64f5a, 0x3e246a79, 0x27333ba3)
  {
  }

  lemma Behind5()
    ensures FourBehind(0x9d209d67, 0xec8726cb, 0x702138a4, 0xd3b7973b,
                       0x93f5997f, 0x72af830a, 0x9409e33e, 0x24641522,
                       0x9f47bf94, 0x3e246a79, 0x27333ba3, 0x0c4763f2, 0x840abf27, 0x7a290d5d, 0x065c43da)
  {
  }

  lemma Extends6()
    ensures FourExtended(0x93f5997f, 0x3b68ba73, 0xaff4ffc1, 0xf10a5c62, 0x0a8b3996,
                         0xf0a64f5a, 0x3e246a79, 0x27333ba3, 0x0c4763f2, 0x7a290d5d, 0x065c43da,
                         0xfb3e89cb, 0xcc7617db, 0xb9e66c34, 0xa9993667)
  {
  }

  lemma Behind6()
    ensures FourBehind(0x0a8b3996, 0x72af830a, 0x9409e33e, 0x24641522,
                       0x9f47bf94, 0x840abf27, 0x7a290d5d, 0x065c43da,
                       0xfb3e89cb, 0xb9e66c34, 0xa9993667, 0x84badedd, 0xc21462bc, 0x1487472c, 0xb20f7a99)
  {
  }

  lemma Extends7()
    ensures FourExtended(0x9f47bf94, 0xf0a64f5a, 0x3e246a79, 0x27333ba3, 0x0c4763f2,
                         0xcc7617db, 0xb9e66c34, 0xa9993667, 0x84badedd, 0x1487472c, 0xb20f7a99,
                         0xef57b9cd, 0xebe6b238, 0x9fe3095e, 0x78bc8d4b)
  {
  }

  lemma Behind7()
    ensures FourBehind(0x0c4763f2, 0x840abf27, 0x7a290d5d, 0x065c43da,
                       0xfb3e89cb, 0xc21462bc, 0x1487472c, 0xb20f7a99,
                       0xef57b9cd, 0x9fe3095e, 0x78bc8d4b, 0xa43fcf15, 0x668b2ff8, 0xeeaba2cc, 0x12b1edeb)
  {
  }

  lemma Rounds0()
    ensures FourRounds(0x6a09e667, 0xbb67ae85, 0x3c6ef372, 0xa54ff53a, 0x510e527f, 0x9b05688c, 0x1f83d9ab, 0x5be0cd19,
                       0x428a2f98, 0x71374491, 0xb5c0fbcf, 0xe9b5dba5, 0x61626380, 0x00000000, 0x00000000, 0x00000000,
                       0x5d6aebcd, 0x5a6ad9ad, 0xc8c347a7, 0xd550f666, 0xfa2a4622, 0x78ce7989, 0xf92939eb, 0x24e00850)
  {
  }

  lemma Rounds4()
    ensures FourRounds(0xd550f666, 0xc8c347a7, 0x5a6ad9ad, 0x5d6aebcd, 0x24e00850, 0xf92939eb, 0x78ce7989, 0xfa2a4622,
                       0x3956c25b, 0x59f111f1, 0x923f82a4, 0xab1c5ed5, 0x00000000, 0x00000000, 0x00000000, 0x00000000,
                       0x04409a6a, 0x2b4209f5, 0xe5030380, 0x85a07b5f, 0x43ada245, 0x714260ad, 0x9b27a401, 0x0c657a79)
  {
  }

  lemma Rounds8()
    ensures FourRounds(0x85a07b5f, 0xe5030380, 0x2b4209f5, 0x04409a6a, 0x0c657a79, 0x9b27a401, 0x714260ad, 0x43ada245,
                       0xd807aa98, 0x12835b01, 0x243185be, 0x550c7dc3, 0x00000000, 0x00000000, 0x00000000, 0x00000000,
                       0x8e04ecb9, 0x8c87346b, 0x4798a3f4, 0xf71fc5a9, 0x32ca2d8c, 0x1cc92596, 0x436b23e8, 0x816fd6e9)
  {
  }

  lemma Rounds12()
    ensures FourRounds(0xf71fc5a9, 0x4798a3f4, 0x8c87346b, 0x8e04ecb9, 0x816fd6e9, 0x436b23e8, 0x1cc92596, 0x32ca2d8c,
                       0x72be5d74, 0x80deb1fe, 0x9bdc06a7, 0xc19bf174, 0x00000000, 0x00000000, 0x00000000, 0x00000018,
                       0x87912990, 0xd932eb16, 0xc0645fde, 0xb0fa238e, 0x1e578218, 0x745a48de, 0x0b92f20c, 0x07590dcd)
  {
  }

  lemma Rounds16()
    ensures FourRounds(0xb0fa238e, 0xc0645fde, 0xd932eb16, 0x87912990, 0x07590dcd, 0x0b92f20c, 0x745a48de, 0x1e578218,
                       0xe49b69c1, 0xefbe4786, 0x0fc19dc6, 0x240ca1cc, 0x61626380, 0x000f0000, 0x7da86405, 0x600003c6,
                       0x21da9a9b, 0xc2fbd9d1, 0xfe777bbf, 0xe1f20c33, 0x8034229c, 0x846ee454, 0xcc899961, 0xb0638179)
  {
  }

  lemma Rounds20()
    ensures FourRounds(0xe1f20c33, 0xfe777bbf, 0xc2fbd9d1, 0x21da9a9b, 0xb0638179, 0xcc899961, 0x846ee454, 0x8034229c,
                       0x2de92c6f, 0x4a7484aa, 0x5cb0a9dc, 0x76f988da, 0x3e9d7b78, 0x0183fc00, 0x12dcbfdb, 0xe2e2c38e,
                       0x9dc68b63, 0xc2606d6d, 0xa7a3623f, 0xc5d53d8d, 0x8ada8930, 0xe1257970, 0x49f5114a, 0xaa47c347)
  {
  }

  lemma Rounds24()
    ensures FourRounds(0xc5d53d8d, 0xa7a3623f, 0xc2606d6d, 0x9dc68b63, 0xaa47c347, 0x49f5114a, 0xe1257970, 0x8ada8930,
                       0x983e5152, 0xa831c66d, 0xb00327c8, 0xbf597fc7, 0xc8215c1a, 0xb73679a2, 0xe5bc3909, 0x32663c5b,
                       0x1c2c2838, 0xcde8037d, 0xb62ec4bc, 0x77d37528, 0x2823ef91, 0x14383d8e, 0xc74c6516, 0xedffbff8)
  {
  }

  lemma Rounds28()
    ensures FourRounds(0x77d37528, 0xb62ec4bc, 0xcde8037d, 0x1c2c2838, 0xedffbff8, 0xc74c6516, 0x14383d8e, 0x2823ef91,
                       0xc6e00bf3, 0xd5a79147, 0x06ca6351, 0x14292967, 0x9d209d67, 0xec8726cb, 0x702138a4, 0xd3b7973b,
                       0x363482c9, 0xa0060b30, 0xea992a22, 0x73b33bf5, 0x6112a3b7, 0xade79437, 0x0109ab3a, 0xba591112)
  {
  }

  lemma Rounds32()
    ensures FourRounds(0x73b33bf5, 0xea992a22, 0xa0060b30, 0x363482c9, 0xba591112, 0x0109ab3a, 0xade79437, 0x6112a3b7,
                       0x27b70a85, 0x2e1b2138, 0x4d2c6dfc, 0x53380d13, 0x93f5997f, 0x3b68ba73, 0xaff4ffc1, 0xf10a5c62,
                       0x98e12507, 0xfe604df5, 0xa9a7738c, 0x65a0cfe4, 0x9cd9f5f6, 0x59249dd3, 0x085f3833, 0xf4b002d6)
  {
  }

  lemma Rounds36()
    ensures FourRounds(0x65a0cfe4, 0xa9a7738c, 0xfe604df5, 0x98e12507, 0xf4b002d6, 0x085f3833, 0x59249dd3, 0x9cd9f5f6,
                       0x650a7354, 0x766a0abb, 0x81c2c92e, 0x92722c85, 0x0a8b3996, 0x72af830a, 0x9409e33e, 0x24641522,
                       0x41a65cb1, 0x34df1604, 0x6dc57a8a, 0x79ea687a, 0x0772a26b, 0xa507a53d, 0xf0781bc8, 0x1efbc0a0)
  {
  }

  lemma Rounds40()
    ensures FourRounds(0x79ea687a, 0x6dc57a8a, 0x34df1604, 0x41a65cb1, 0x1efbc0a0, 0xf0781bc8, 0xa507a53d, 0x0772a26b,
                       0xa2bfe8a1, 0xa81a664b, 0xc24b8b70, 0xc76c51a3, 0x9f47bf94, 0xf0a64f5a, 0x3e246a79, 0x27333ba3,
                       0xd6670766, 0xdf46652f, 0x17aa0dfe, 0x9d4baf93, 0x26352d63, 0x838b2711, 0xdecd4715, 0xfda24c2e)
  {
  }

  lemma Rounds44()
    ensures FourRounds(0x9d4baf93, 0x17aa0dfe, 0xdf46652f, 0xd6670766, 0xfda24c2e, 0xdecd4715, 0x838b2711, 0x26352d63,
                       0xd192e819, 0xd6990624, 0xf40e3585, 0x106aa070, 0x0c4763f2, 0x840abf27, 0x7a290d5d, 0x065c43da,
                       0x26628815, 0x72ab4b91, 0xa14c14b0, 0x4172328d, 0xa80f11f0, 0xb7755da1, 0xd57b94a9, 0xfecf0bc6)
  {
  }

  lemma Rounds48()
    ensures FourRounds(0x4172328d, 0xa14c14b0, 0x72ab4b91, 0x26628815, 0xfecf0bc6, 0xd57b94a9, 0xb7755da1, 0xa80f11f0,
                       0x19a4c116, 0x1e376c08, 0x2748774c, 0x34b0bcb5, 0xfb3e89cb, 0xcc7617db, 0xb9e66c34, 0xa9993667,
                       0x05757ceb, 0xf11bfaa8, 0x7a0508a1, 0x886e7a22, 0xbd714038, 0x6e5c390c, 0x52f1ccf7, 0x49231c1e)
  {
  }

  lemma Rounds52()
    ensures FourRounds(0x886e7a22, 0x7a0508a1, 0xf11bfaa8, 0x05757ceb, 0x49231c1e, 0x52f1ccf7, 0x6e5c390c, 0xbd714038,
                       0x391c0cb3, 0x4ed8aa4a, 0x5b9cca4f, 0x682e6ff3, 0x84badedd, 0xc21462bc, 0x1487472c, 0xb20f7a99,
                       0x101fd28f, 0xf5702fdb, 0x3ec45cdb, 0x38cc9913, 0x529e7d00, 0x9f4787c3, 0xe50e1b4f, 0x54cb266b)
  {
  }

  lemma Rounds56()
    ensures FourRounds(0x38cc9913, 0x3ec45cdb, 0xf5702fdb, 0x101fd28f, 0x54cb266b, 0xe50e1b4f, 0x9f4787c3, 0x529e7d00,
                       0x748f82ee, 0x78a5636f, 0x84c87814, 0x8cc70208, 0xef57b9cd, 0xebe6b238, 0x9fe3095e, 0x78bc8d4b,
                       0xfcd1887b, 0xc062d46f, 0xffb70472, 0xb6ae8fff, 0x9b5e906c, 0x7e44008e, 0x6d83bfc6, 0xb21bad3d)
  {
  }

  lemma Rounds60()
    ensures FourRounds(0xb6ae8fff, 0xffb70472, 0xc062d46f, 0xfcd1887b, 0xb21bad3d, 0x6d83bfc6, 0x7e44008e, 0x9b5e906c,
                       0x90befffa, 0xa4506ceb, 0xbef9a3f7, 0xc67178f2, 0xa43fcf15, 0x668b2ff8, 0xeeaba2cc, 0x12b1edeb,
                       0xb85e2ce9, 0x04d24d6c, 0xd39a2165, 0x506e3058, 0x961f4894, 0x948d25b6, 0xfb121210, 0x5ef50f24)
  {
  }

  lemma Constants0()
    ensures EightConstants(0, 0x428a2f98, 0x71374491, 0xb5c0fbcf, 0xe9b5dba5, 0x3956c25b, 0x59f111f1, 0x923f82a4,
                           0xab1c5ed5)
  {
  }

  lemma Constants1()
    ensures EightConstants(8, 0xd807aa98, 0x12835b01, 0x243185be, 0x550c7dc3, 0x72be5d74, 0x80deb1fe, 0x9bdc06a7,
                           0xc19bf174)
  {
  }

  lemma Constants2()
    ensures EightConstants(16, 0xe49b69c1, 0xefbe4786, 0x0fc19dc6, 0x240ca1cc, 0x2de92c6f, 0x4a7484aa, 0x5cb0a9dc,
                           0x76f988da)
  {
  }

  lemma Constants3()
    ensures EightConstants(24, 0x983e5152, 0xa831c66d, 0xb00327c8, 0xbf597fc7, 0xc6e00bf3, 0xd5a79147, 0x06ca6351,
                           0x14292967)
  {
  }

  lemma Constants4()
    ensures EightConstants(32, 0x27b70a85, 0x2e1b2138, 0x4d2c6dfc, 0x53380d13, 0x650a7354, 0x766a0abb, 0x81c2c92e,
                           0x92722c85)
  {
  }

  lemma Constants5()
    ensures EightConstants(40, 0xa2bfe8a1, 0xa81a664b, 0xc24b8b70, 0xc76c51a3, 0xd192e819, 0xd6990624, 0xf40e3585,
                           0x106aa070)
  {
  }

  lemma Constants6()
    ensures EightConstants(48, 0x19a4c116, 0x1e376c08, 0x2748774c, 0x34b0bcb5, 0x391c0cb3, 0x4ed8aa4a, 0x5b9cca4f,
                           0x682e6ff3)
  {
  }

  lemma Constants7()
    ensures EightConstants(56, 0x748f82ee, 0x78a5636f, 0x84c87814, 0x8cc70208, 0x90befffa, 0xa4506ceb, 0xbef9a3f7,
                           0xc67178f2)
  {
  }

  // ---------- along the block ----------

  /** The padded message. */
  ghost predicate Sample(block: seq<Byte>) {
    block == Pad([Byte(0x61), Byte(0x62), Byte(0x63)])
  }

  ghost predicate Words(block: seq<Byte>, t: nat, w0: bv32, w1: bv32, w2: bv32, w3: bv32, w4: bv32, w5: bv32,
                        w6: bv32, w7: bv32)
    requires |block| == BLOCK_BYTES && t <= 56
  {
    && Schedule(block, t) == Word(w0) && Schedule(block, t + 1) == Word(w1) && Schedule(block, t + 2) == Word(w2)
    && Schedule(block, t + 3) == Word(w3) && Schedule(block, t + 4) == Word(w4) && Schedule(block, t + 5) == Word(w5)
    && Schedule(block, t + 6) == Word(w6) && Schedule(block, t + 7) == Word(w7)
  }

  lemma SamplePadded(block: seq<Byte>)
    requires Sample(block)
    ensures |block| == BLOCK_BYTES && Padded(block)
  {
    BitLength(24);
  }

  lemma BitLength(n: nat)
    requires n == 24
    ensures Be64(n) == Zeros(7) + [Byte(24)]
  {
    assert BigEndian(24, 8) == BigEndian(0, 7) + [Byte(24)];
    assert BigEndian(0, 7) == BigEndian(0, 6) + [Byte(0)];
    assert BigEndian(0, 6) == BigEndian(0, 5) + [Byte(0)];
    assert BigEndian(0, 5) == BigEndian(0, 4) + [Byte(0)];
    assert BigEndian(0, 4) == BigEndian(0, 3) + [Byte(0)];
    assert BigEndian(0, 3) == BigEndian(0, 2) + [Byte(0)];
    assert BigEndian(0, 2) == BigEndian(0, 1) + [Byte(0)];
    assert BigEndian(0, 1) == BigEndian(0, 0) + [Byte(0)];
  }

  /** The message and the marker make the first word, the bit length makes the last one. */
  ghost predicate Padded(block: seq<Byte>) {
    block == [Byte(0x61), Byte(0x62), Byte(0x63), Byte(0x80)] + Zeros(52) + Zeros(7) + [Byte(24)]
  }

  lemma ZeroWord(block: seq<Byte>, t: nat)
    requires Padded(block) && 1 <= t <= 14
    ensures BlockWord(block, t) == Word(0)
  {
    assert block[4 * t] == block[4 * t + 1] == block[4 * t + 2] == block[4 * t + 3] == Byte(0);
    hide Padded;
  }

  lemma EndWords(block: seq<Byte>)
    requires Padded(block)
    ensures BlockWord(block, 0) == Word(0x61626380) && BlockWord(block, 15) == Word(0x18)
  {
    assert block[..4] == [Byte(0x61), Byte(0x62), Byte(0x63), Byte(0x80)];
    assert block[60..] == [Byte(0), Byte(0), Byte(0), Byte(24)];
    assert block[0] == block[..4][0] && block[1] == block[..4][1] && block[2] == block[..4][2];
    assert block[63] == block[60..][3];
  }

  lemma FirstWords(block: seq<Byte>)
    requires Padded(block)
    ensures Words(block, 0, 0x61626380, 0, 0, 0, 0, 0, 0, 0) && Words(block, 8, 0, 0, 0, 0, 0, 0, 0, 0x18)
  {
    hide BlockWord;
    EndWords(block);
    forall t | 1 <= t <= 14
      ensures BlockWord(block, t) == Word(0)
    {
      ZeroWord(block, t);
    }
    assert |block| == BLOCK_BYTES;
    hide Padded;
  }

  lemma EightLonger(block: seq<Byte>, t: nat,
                   x0: bv32, x1: bv32, x2: bv32, x3: bv32, x4: bv32, x5: bv32, x6: bv32, x7: bv32,
                   y0: bv32, y1: bv32, y2: bv32, y3: bv32, y4: bv32, y5: bv32, y6: bv32, y7: bv32,
                   z0: bv32, z1: bv32, z2: bv32, z3: bv32, z4: bv32, z5: bv32, z6: bv32, z7: bv32)
    requires |block| == BLOCK_BYTES && t <= 40
    requires Words(block, t, x0, x1, x2, x3, x4, x5, x6, x7) && Words(block, t + 8, y0, y1, y2, y3, y4, y5, y6, y7)
    requires FourExtended(x0, x1, x2, x3, x4, y1, y2, y3, y4, y6, y7, z0, z1, z2, z3)
    requires FourBehind(x4, x5, x6, x7, y0, y5, y6, y7, z0, z2, z3, z4, z5, z6, z7)
    ensures Words(block, t + 16, z0, z1, z2, z3, z4, z5, z6, z7)
  {
    hide Extend;
  }

  lemma Row0(block: seq<Byte>)
    requires Sample(block)
    ensures |block| == BLOCK_BYTES
    ensures Words(block, 0, 0x61626380, 0x00000000, 0x00000000, 0x00000000, 0x00000000, 0x00000000, 0x00000000,
                  0x00000000)
  {
    hide Words, FourExtended, FourBehind, Sample, Padded;
    SamplePadded(block);
    FirstWords(block);
  }

  lemma Row1(block: seq<Byte>)
    requires Sample(block)
    ensures |block| == BLOCK_BYTES
    ensures Words(block, 8, 0x00000000, 0x00000000, 0x00000000, 0x00000000, 0x00000000, 0x00000000, 0x00000000,
                  0x00000018)
  {
    hide Words, FourExtended, FourBehind, Sample, Padded;
    SamplePadded(block);
    FirstWords(block);
  }

  lemma Row2(block: seq<Byte>)
    requires Sample(block)
    ensures |block| == BLOCK_BYTES
    ensures Words(block, 16, 0x61626380, 0x000f0000, 0x7da86405, 0x600003c6, 0x3e9d7b78, 0x0183fc00, 0x12dcbfdb,
                  0xe2e2c38e)
  {
    hide Words, FourExtended, FourBehind, Sample, Padded;
    Row0(block);
    Row1(block);
    Extends2();
    Behind2();
    EightLonger(block, 0, 0x61626380, 0x00000000, 0x00000000, 0x00000000, 0x00000000, 0x00000000, 0x00000000,
                0x00000000,
        0x00000000, 0x00000000, 0x00000000, 0x00000000, 0x00000000, 0x00000000, 0x00000000, 0x00000018,
        0x61626380, 0x000f0000, 0x7da86405, 0x600003c6, 0x3e9d7b78, 0x0183fc00, 0x12dcbfdb, 0xe2e2c38e);
  }

  lemma Row3(block: seq<Byte>)
    requires Sample(block)
    ensures |block| == BLOCK_BYTES
    ensures Words(block, 24, 0xc8215c1a, 0xb73679a2, 0xe5bc3909, 0x32663c5b, 0x9d209d67, 0xec8726cb, 0x702138a4,
                  0xd3b7973b)
  {
    hide Words, FourExtended, FourBehind, Sample, Padded;
    Row1(block);
    Row2(block);
    Extends3();
    Behind3();
    EightLonger(block, 8, 0x00000000, 0x00000000, 0x00000000, 0x00000000, 0x00000000, 0x00000000, 0x00000000,
                0x00000018,
        0x61626380, 0x000f0000, 0x7da86405, 0x600003c6, 0x3e9d7b78, 0x0183fc00, 0x12dcbfdb, 0xe2e2c38e,
        0xc8215c1a, 0xb73679a2, 0xe5bc3909, 0x32663c5b, 0x9d209d67, 0xec8726cb, 0x702138a4, 0xd3b7973b);
  }

  lemma Row4(block: seq<Byte>)
    requires Sample(block)
    ensures |block| == BLOCK_BYTES
    ensures Words(block, 32, 0x93f5997f, 0x3b68ba73, 0xaff4ffc1, 0xf10a5c62, 0x0a8b3996, 0x72af830a, 0x9409e33e,
                  0x24641522)
  {
    hide Words, FourExtended, FourBehind, Sample, Padded;
    Row2(block);
    Row3(block);
    Extends4();
    Behind4();
    EightLonger(block, 16, 0x61626380, 0x000f0000, 0x7da86405, 0x600003c6, 0x3e9d7b78, 0x0183fc00, 0x12dcbfdb,
                0xe2e2c38e,
        0xc8215c1a, 0xb73679a2, 0xe5bc3909, 0x32663c5b, 0x9d209d67, 0xec8726cb, 0x702138a4, 0xd3b7973b,
        0x93f5997f, 0x3b68ba73, 0xaff4ffc1, 0xf10a5c62, 0x0a8b3996, 0x72af830a, 0x9409e33e, 0x24641522);
  }

  lemma Row5(block: seq<Byte>)
    requires Sample(block)
    ensures |block| == BLOCK_BYTES
    ensures Words(block, 40, 0x9f47bf94, 0xf0a64f5a, 0x3e246a79, 0x27333ba3, 0x0c4763f2, 0x840abf27, 0x7a290d5d,
                  0x065c43da)
  {
    hide Words, FourExtended, FourBehind, Sample, Padded;
    Row3(block);
    Row4(block);
    Extends5();
    Behind5();
    EightLonger(block, 24, 0xc8215c1a, 0xb73679a2, 0xe5bc3909, 0x32663c5b, 0x9d209d67, 0xec8726cb, 0x702138a4,
                0xd3b7973b,
        0x93f5997f, 0x3b68ba73, 0xaff4ffc1, 0xf10a5c62, 0x0a8b3996, 0x72af830a, 0x9409e33e, 0x24641522,
        0x9f47bf94, 0xf0a64f5a, 0x3e246a79, 0x27333ba3, 0x0c4763f2, 0x840abf27, 0x7a290d5d, 0x065c43da);
  }

  lemma Row6(block: seq<Byte>)
    requires Sample(block)
    ensures |block| == BLOCK_BYTES
    ensures Words(block, 48, 0xfb3e89cb, 0xcc7617db, 0xb9e66c34, 0xa9993667, 0x84badedd, 0xc21462bc, 0x1487472c,
                  0xb20f7a99)
  {
    hide Words, FourExtended, FourBehind, Sample, Padded;
    Row4(block);
    Row5(block);
    Extends6();
    Behind6();
    EightLonger(block, 32, 0x93f5997f, 0x3b68ba73, 0xaff4ffc1, 0xf10a5c62, 0x0a8b3996, 0x72af830a, 0x9409e33e,
                0x24641522,
        0x9f47bf94, 0xf0a64f5a, 0x3e246a79, 0x27333ba3, 0x0c4763f2, 0x840abf27, 0x7a290d5d, 0x065c43da,
        0xfb3e89cb, 0xcc7617db, 0xb9e66c34, 0xa9993667, 0x84badedd, 0xc21462bc, 0x1487472c, 0xb20f7a99);
  }

  lemma Row7(block: seq<Byte>)
    requires Sample(block)
    ensures |block| == BLOCK_BYTES
    ensures Words(block, 56, 0xef57b9cd, 0xebe6b238, 0x9fe3095e, 0x78bc8d4b, 0xa43fcf15, 0x668b2ff8, 0xeeaba2cc,
                  0x12b1edeb)
  {
    hide Words, FourExtended, FourBehind, Sample, Padded;
    Row5(block);
    Row6(block);
    Extends7();
    Behind7();
    EightLonger(block, 40, 0x9f47bf94, 0xf0a64f5a, 0x3e246a79, 0x27333ba3, 0x0c4763f2, 0x840abf27, 0x7a290d5d,
                0x065c43da,
        0xfb3e89cb, 0xcc7617db, 0xb9e66c34, 0xa9993667, 0x84badedd, 0xc21462bc, 0x1487472c, 0xb20f7a99,
        0xef57b9cd, 0xebe6b238, 0x9fe3095e, 0x78bc8d4b, 0xa43fcf15, 0x668b2ff8, 0xeeaba2cc, 0x12b1edeb);
  }

  lemma FourMore(block: seq<Byte>, t: nat)
    requires |block| == BLOCK_BYTES && t <= 60
    ensures Rounds(block, H0, t + 4)
            == Round(Round(Round(Round(Rounds(block, H0, t), KAt(t), Schedule(block, t)), KAt(t + 1),
                                 Schedule(block, t + 1)), KAt(t + 2), Schedule(block, t + 2)), KAt(t + 3),
                     Schedule(block, t + 3))
  {
    hide Round, KAt, Schedule;
    assert Rounds(block, H0, t + 1) == Round(Rounds(block, H0, t), KAt(t), Schedule(block, t));
    assert Rounds(block, H0, t + 2) == Round(Rounds(block, H0, t + 1), KAt(t + 1), Schedule(block, t + 1));
    assert Rounds(block, H0, t + 3) == Round(Rounds(block, H0, t + 2), KAt(t + 2), Schedule(block, t + 2));
  }

  lemma Start(block: seq<Byte>)
    requires |block| == BLOCK_BYTES
    ensures Rounds(block, H0, 0) == Of(0x6a09e667, 0xbb67ae85, 0x3c6ef372, 0xa54ff53a, 0x510e527f, 0x9b05688c,
                                       0x1f83d9ab, 0x5be0cd19)
  {
  }

  lemma Sixteen(block: seq<Byte>)
    requires Sample(block)
    ensures |block| == BLOCK_BYTES
    ensures Rounds(block, H0, 16) == Of(0xb0fa238e, 0xc0645fde, 0xd932eb16, 0x87912990, 0x07590dcd, 0x0b92f20c,
                                        0x745a48de, 0x1e578218)
  {
    hide Round, KAt, Schedule, Rounds, Sample;
    Row0(block);
    Row1(block);
    Constants0();
    Constants1();
    Start(block);
    Rounds0();
    FourMore(block, 0);
    Rounds4();
    FourMore(block, 4);
    Rounds8();
    FourMore(block, 8);
    Rounds12();
    FourMore(block, 12);
  }

  lemma ThirtyTwo(block: seq<Byte>)
    requires Sample(block)
    ensures |block| == BLOCK_BYTES
    ensures Rounds(block, H0, 32) == Of(0x73b33bf5, 0xea992a22, 0xa0060b30, 0x363482c9, 0xba591112, 0x0109ab3a,
                                        0xade79437, 0x6112a3b7)
  {
    hide Round, KAt, Schedule, Rounds, Sample;
    Row2(block);
    Row3(block);
    Constants2();
    Constants3();
    Sixteen(block);
    Rounds16();
    FourMore(block, 16);
    Rounds20();
    FourMore(block, 20);
    Rounds24();
    FourMore(block, 24);
    Rounds28();
    FourMore(block, 28);
  }

  lemma FortyEight(block: seq<Byte>)
    requires Sample(block)
    ensures |block| == BLOCK_BYTES
    ensures Rounds(block, H0, 48) == Of(0x4172328d, 0xa14c14b0, 0x72ab4b91, 0x26628815, 0xfecf0bc6, 0xd57b94a9,
                                        0xb7755da1, 0xa80f11f0)
  {
    hide Round, KAt, Schedule, Rounds, Sample;
    Row4(block);
    Row5(block);
    Constants4();
    Constants5();
    ThirtyTwo(block);
    Rounds32();
    FourMore(block, 32);
    Rounds36();
    FourMore(block, 36);
    Rounds40();
    FourMore(block, 40);
    Rounds44();
    FourMore(block, 44);
  }

  lemma SixtyFour(block: seq<Byte>)
    requires Sample(block)
    ensures |block| == BLOCK_BYTES
    ensures Rounds(block, H0, 64) == Of(0x506e3058, 0xd39a2165, 0x04d24d6c, 0xb85e2ce9, 0x5ef50f24, 0xfb121210,
                                        0x948d25b6, 0x961f4894)
  {
    hide Round, KAt, Schedule, Rounds, Sample;
    Row6(block);
    Row7(block);
    Constants6();
    Constants7();
    FortyEight(block);
    Rounds48();
    FourMore(block, 48);
    Rounds52();
    FourMore(block, 52);
    Rounds56();
    FourMore(block, 56);
    Rounds60();
    FourMore(block, 60);
  }

  lemma Sums()
    ensures AddVars(Of(0x6a09e667, 0xbb67ae85, 0x3c6ef372, 0xa54ff53a, 0x510e527f, 0x9b05688c, 0x1f83d9ab,
                       0x5be0cd19),
                    Of(0x506e3058, 0xd39a2165, 0x04d24d6c, 0xb85e2ce9, 0x5ef50f24, 0xfb121210, 0x948d25b6,
                       0x961f4894))
            == Of(0xba7816bf, 0x8f01cfea, 0x414140de, 0x5dae2223, 0xb00361a3, 0x96177a9c, 0xb410ff61, 0xf20015ad)
  {
  }

  lemma SampleHash(block: seq<Byte>)
    requires Sample(block)
    ensures |block| == BLOCK_BYTES && HashBlocks(block) == Of(0xba7816bf, 0x8f01cfea, 0x414140de, 0x5dae2223,
                                                 0xb00361a3, 0x96177a9c, 0xb410ff61, 0xf20015ad)
  {
    hide Rounds, Sample, AddVars;
    SixtyFour(block);
    Sums();
    Start(block);
    assert block[..0] == [] && block[0..] == block;
    assert HashBlocks([]) == H0;
  }

  lemma OneMore(ws: seq<Word>, w: Word)
    ensures BytesOf(ws + [w]) == BytesOf(ws) + WordBytes(w)
  {
    assert (ws + [w])[..|ws|] == ws;
  }

  lemma OutputInOrder(v: Vars)
    ensures Output(v) == WordBytes(v.a) + WordBytes(v.b) + WordBytes(v.c) + WordBytes(v.d) + WordBytes(v.e)
                         + WordBytes(v.f) + WordBytes(v.g) + WordBytes(v.h)
  {
    hide WordBytes;
    var two, four := [v.a] + [v.b], [v.a] + [v.b] + [v.c] + [v.d];
    OneMore([], v.a);
    assert [] + [v.a] == [v.a] && BytesOf([]) == [];
    OneMore([v.a], v.b);
    OneMore(two, v.c);
    OneMore(two + [v.c], v.d);
    OneMore(four, v.e);
    OneMore(four + [v.e], v.f);
    OneMore(four + [v.e] + [v.f], v.g);
    OneMore(four + [v.e] + [v.f] + [v.g], v.h);
    assert four + [v.e] + [v.f] + [v.g] + [v.h] == [v.a, v.b, v.c, v.d, v.e, v.f, v.g, v.h];
    hide BytesOf;
  }

  /** The first test vector of section B.1 of FIPS 180-2, which is also one of the program's own. */
  lemma Abc()
    ensures Digest([Byte(0x61), Byte(0x62), Byte(0x63)])
            == WordBytes(Word(0xba7816bf)) + WordBytes(Word(0x8f01cfea)) + WordBytes(Word(0x414140de))
               + WordBytes(Word(0x5dae2223)) + WordBytes(Word(0xb00361a3)) + WordBytes(Word(0x96177a9c))
               + WordBytes(Word(0xb410ff61)) + WordBytes(Word(0xf20015ad))
  {
    hide WordBytes, HashBlocks, Pad;
    var block := Pad([Byte(0x61), Byte(0x62), Byte(0x63)]);
    SampleHash(block);
    OutputInOrder(HashBlocks(block));
  }
}
