/** The hash of "abc", worked through round by round. The schedule is given as a table and every word of it follows
    from those before; so do the variables after each of the 64 rounds, and the eight words of the hash are those
    after the last round added to those before the first. It comes to the digest FIPS 180-2 publishes, which
    fixes every constant and every rotation the hash is made of. */
module Sha256Example {
  import opened Text
  import opened Sha256

  const ABC: seq<byte> := [0x61, 0x62, 0x63]

  /** The message schedule of its one block. */
  const WORDS: seq<bv32> :=
    [0x61626380, 0x00000000, 0x00000000, 0x00000000, 0x00000000, 0x00000000, 0x00000000, 0x00000000]
    + [0x00000000, 0x00000000, 0x00000000, 0x00000000, 0x00000000, 0x00000000, 0x00000000, 0x00000018]
    + [0x61626380, 0x000f0000, 0x7da86405, 0x600003c6, 0x3e9d7b78, 0x0183fc00, 0x12dcbfdb, 0xe2e2c38e]
    + [0xc8215c1a, 0xb73679a2, 0xe5bc3909, 0x32663c5b, 0x9d209d67, 0xec8726cb, 0x702138a4, 0xd3b7973b]
    + [0x93f5997f, 0x3b68ba73, 0xaff4ffc1, 0xf10a5c62, 0x0a8b3996, 0x72af830a, 0x9409e33e, 0x24641522]
    + [0x9f47bf94, 0xf0a64f5a, 0x3e246a79, 0x27333ba3, 0x0c4763f2, 0x840abf27, 0x7a290d5d, 0x065c43da]
    + [0xfb3e89cb, 0xcc7617db, 0xb9e66c34, 0xa9993667, 0x84badedd, 0xc21462bc, 0x1487472c, 0xb20f7a99]
    + [0xef57b9cd, 0xebe6b238, 0x9fe3095e, 0x78bc8d4b, 0xa43fcf15, 0x668b2ff8, 0xeeaba2cc, 0x12b1edeb]

  predicate WordFollows(t: nat)
    requires 16 <= t < 64
  {
    WORDS[t] == Sum4(SmallSigma1(WORDS[t - 2]), WORDS[t - 7], SmallSigma0(WORDS[t - 15]), WORDS[t - 16])
  }

  lemma Words16()
    ensures WordFollows(16) && WordFollows(17) && WordFollows(18) && WordFollows(19)
  {
  }

  lemma Words20()
    ensures WordFollows(20) && WordFollows(21) && WordFollows(22) && WordFollows(23)
  {
  }

  lemma Words24()
    ensures WordFollows(24) && WordFollows(25) && WordFollows(26) && WordFollows(27)
  {
  }

  lemma Words28()
    ensures WordFollows(28) && WordFollows(29) && WordFollows(30) && WordFollows(31)
  {
  }

  lemma Words32()
    ensures WordFollows(32) && WordFollows(33) && WordFollows(34) && WordFollows(35)
  {
  }

  lemma Words36()
    ensures WordFollows(36) && WordFollows(37) && WordFollows(38) && WordFollows(39)
  {
  }

  lemma Words40()
    ensures WordFollows(40) && WordFollows(41) && WordFollows(42) && WordFollows(43)
  {
  }

  lemma Words44()
    ensures WordFollows(44) && WordFollows(45) && WordFollows(46) && WordFollows(47)
  {
  }

  lemma Words48()
    ensures WordFollows(48) && WordFollows(49) && WordFollows(50) && WordFollows(51)
  {
  }

  lemma Words52()
    ensures WordFollows(52) && WordFollows(53) && WordFollows(54) && WordFollows(55)
  {
  }

  lemma Words56()
    ensures WordFollows(56) && WordFollows(57) && WordFollows(58) && WordFollows(59)
  {
  }

  lemma Words60()
    ensures WordFollows(60) && WordFollows(61) && WordFollows(62) && WordFollows(63)
  {
  }

  lemma EveryWordFollows(t: nat)
    requires 16 <= t < 64
    ensures WordFollows(t)
  {
    hide *;
    if 16 <= t < 20 { Words16(); }
    if 20 <= t < 24 { Words20(); }
    if 24 <= t < 28 { Words24(); }
    if 28 <= t < 32 { Words28(); }
    if 32 <= t < 36 { Words32(); }
    if 36 <= t < 40 { Words36(); }
    if 40 <= t < 44 { Words40(); }
    if 44 <= t < 48 { Words44(); }
    if 48 <= t < 52 { Words48(); }
    if 52 <= t < 56 { Words52(); }
    if 56 <= t < 60 { Words56(); }
    if 60 <= t < 64 { Words60(); }
  }

  lemma {:induction false} ScheduleIs(t: nat)
    requires 16 <= t <= 64
    ensures Schedule(WORDS[..16], t) == WORDS[..t]
  {
    hide *;
    SixtyFour();
    if t == 16 {
      StartsSchedule(WORDS[..16]);
    } else {
      ScheduleIs(t - 1);
      EveryWordFollows(t - 1);
      WordIsNext(t - 1);
      OneMoreWord(WORDS[..16], t - 1);
      assert WORDS[..t] == WORDS[..t - 1] + [WORDS[t - 1]];
    }
  }

  lemma SixtyFour()
    ensures |WORDS| == 64
  {
  }

  lemma WordIsNext(t: nat)
    requires 16 <= t < 64 && WordFollows(t)
    ensures |WORDS| == 64 && NextWord(WORDS[..t]) == WORDS[t]
  {
    hide Sum4, SmallSigma0, SmallSigma1;
  }

  // ----- The rounds -----

  lemma Step(t: nat, s: Working, k: bv32, word: bv32, next: Working)
    requires t < |WORDS| && Rounds(INITIAL, WORDS, t) == s && RoundConstant(t) == k && WORDS[t] == word
    requires Round(s, k, word) == next
    ensures Rounds(INITIAL, WORDS, t + 1) == next
  {
    hide Round, RoundConstant;
  }

  lemma Constants0()
    ensures |WORDS| == 64
    ensures RoundConstant(0) == 0x428a2f98 && RoundConstant(1) == 0x71374491 && RoundConstant(2) == 0xb5c0fbcf && RoundConstant(3) == 0xe9b5dba5
    ensures WORDS[0] == 0x61626380 && WORDS[1] == 0x00000000 && WORDS[2] == 0x00000000 && WORDS[3] == 0x00000000
  {
  }

  lemma Constants4()
    ensures |WORDS| == 64
    ensures RoundConstant(4) == 0x3956c25b && RoundConstant(5) == 0x59f111f1 && RoundConstant(6) == 0x923f82a4 && RoundConstant(7) == 0xab1c5ed5
    ensures WORDS[4] == 0x00000000 && WORDS[5] == 0x00000000 && WORDS[6] == 0x00000000 && WORDS[7] == 0x00000000
  {
  }

  lemma Constants8()
    ensures |WORDS| == 64
    ensures RoundConstant(8) == 0xd807aa98 && RoundConstant(9) == 0x12835b01 && RoundConstant(10) == 0x243185be && RoundConstant(11) == 0x550c7dc3
    ensures WORDS[8] == 0x00000000 && WORDS[9] == 0x00000000 && WORDS[10] == 0x00000000 && WORDS[11] == 0x00000000
  {
  }

  lemma Constants12()
    ensures |WORDS| == 64
    ensures RoundConstant(12) == 0x72be5d74 && RoundConstant(13) == 0x80deb1fe && RoundConstant(14) == 0x9bdc06a7 && RoundConstant(15) == 0xc19bf174
    ensures WORDS[12] == 0x00000000 && WORDS[13] == 0x00000000 && WORDS[14] == 0x00000000 && WORDS[15] == 0x00000018
  {
  }

  lemma Constants16()
    ensures |WORDS| == 64
    ensures RoundConstant(16) == 0xe49b69c1 && RoundConstant(17) == 0xefbe4786 && RoundConstant(18) == 0x0fc19dc6 && RoundConstant(19) == 0x240ca1cc
    ensures WORDS[16] == 0x61626380 && WORDS[17] == 0x000f0000 && WORDS[18] == 0x7da86405 && WORDS[19] == 0x600003c6
  {
  }

  lemma Constants20()
    ensures |WORDS| == 64
    ensures RoundConstant(20) == 0x2de92c6f && RoundConstant(21) == 0x4a7484aa && RoundConstant(22) == 0x5cb0a9dc && RoundConstant(23) == 0x76f988da
    ensures WORDS[20] == 0x3e9d7b78 && WORDS[21] == 0x0183fc00 && WORDS[22] == 0x12dcbfdb && WORDS[23] == 0xe2e2c38e
  {
  }

  lemma Constants24()
    ensures |WORDS| == 64
    ensures RoundConstant(24) == 0x983e5152 && RoundConstant(25) == 0xa831c66d && RoundConstant(26) == 0xb00327c8 && RoundConstant(27) == 0xbf597fc7
    ensures WORDS[24] == 0xc8215c1a && WORDS[25] == 0xb73679a2 && WORDS[26] == 0xe5bc3909 && WORDS[27] == 0x32663c5b
  {
  }

  lemma Constants28()
    ensures |WORDS| == 64
    ensures RoundConstant(28) == 0xc6e00bf3 && RoundConstant(29) == 0xd5a79147 && RoundConstant(30) == 0x06ca6351 && RoundConstant(31) == 0x14292967
    ensures WORDS[28] == 0x9d209d67 && WORDS[29] == 0xec8726cb && WORDS[30] == 0x702138a4 && WORDS[31] == 0xd3b7973b
  {
  }

  lemma Constants32()
    ensures |WORDS| == 64
    ensures RoundConstant(32) == 0x27b70a85 && RoundConstant(33) == 0x2e1b2138 && RoundConstant(34) == 0x4d2c6dfc && RoundConstant(35) == 0x53380d13
    ensures WORDS[32] == 0x93f5997f && WORDS[33] == 0x3b68ba73 && WORDS[34] == 0xaff4ffc1 && WORDS[35] == 0xf10a5c62
  {
  }

  lemma Constants36()
    ensures |WORDS| == 64
    ensures RoundConstant(36) == 0x650a7354 && RoundConstant(37) == 0x766a0abb && RoundConstant(38) == 0x81c2c92e && RoundConstant(39) == 0x92722c85
    ensures WORDS[36] == 0x0a8b3996 && WORDS[37] == 0x72af830a && WORDS[38] == 0x9409e33e && WORDS[39] == 0x24641522
  {
  }

  lemma Constants40()
    ensures |WORDS| == 64
    ensures RoundConstant(40) == 0xa2bfe8a1 && RoundConstant(41) == 0xa81a664b && RoundConstant(42) == 0xc24b8b70 && RoundConstant(43) == 0xc76c51a3
    ensures WORDS[40] == 0x9f47bf94 && WORDS[41] == 0xf0a64f5a && WORDS[42] == 0x3e246a79 && WORDS[43] == 0x27333ba3
  {
  }

  lemma Constants44()
    ensures |WORDS| == 64
    ensures RoundConstant(44) == 0xd192e819 && RoundConstant(45) == 0xd6990624 && RoundConstant(46) == 0xf40e3585 && RoundConstant(47) == 0x106aa070
    ensures WORDS[44] == 0x0c4763f2 && WORDS[45] == 0x840abf27 && WORDS[46] == 0x7a290d5d && WORDS[47] == 0x065c43da
  {
  }

  lemma Constants48()
    ensures |WORDS| == 64
    ensures RoundConstant(48) == 0x19a4c116 && RoundConstant(49) == 0x1e376c08 && RoundConstant(50) == 0x2748774c && RoundConstant(51) == 0x34b0bcb5
    ensures WORDS[48] == 0xfb3e89cb && WORDS[49] == 0xcc7617db && WORDS[50] == 0xb9e66c34 && WORDS[51] == 0xa9993667
  {
  }

  lemma Constants52()
    ensures |WORDS| == 64
    ensures RoundConstant(52) == 0x391c0cb3 && RoundConstant(53) == 0x4ed8aa4a && RoundConstant(54) == 0x5b9cca4f && RoundConstant(55) == 0x682e6ff3
    ensures WORDS[52] == 0x84badedd && WORDS[53] == 0xc21462bc && WORDS[54] == 0x1487472c && WORDS[55] == 0xb20f7a99
  {
  }

  lemma Constants56()
    ensures |WORDS| == 64
    ensures RoundConstant(56) == 0x748f82ee && RoundConstant(57) == 0x78a5636f && RoundConstant(58) == 0x84c87814 && RoundConstant(59) == 0x8cc70208
    ensures WORDS[56] == 0xef57b9cd && WORDS[57] == 0xebe6b238 && WORDS[58] == 0x9fe3095e && WORDS[59] == 0x78bc8d4b
  {
  }

  lemma Constants60()
    ensures |WORDS| == 64
    ensures RoundConstant(60) == 0x90befffa && RoundConstant(61) == 0xa4506ceb && RoundConstant(62) == 0xbef9a3f7 && RoundConstant(63) == 0xc67178f2
    ensures WORDS[60] == 0xa43fcf15 && WORDS[61] == 0x668b2ff8 && WORDS[62] == 0xeeaba2cc && WORDS[63] == 0x12b1edeb
  {
  }

  lemma Rounds0()
    ensures Rounds(INITIAL, WORDS, 4) == Working(0xd550f666, 0xc8c347a7, 0x5a6ad9ad, 0x5d6aebcd, 0x24e00850, 0xf92939eb, 0x78ce7989, 0xfa2a4622)
  {
    hide RoundConstant, Rounds;
    Constants0();
    NoRounds(INITIAL, WORDS);
    Step(0, Working(0x6a09e667, 0xbb67ae85, 0x3c6ef372, 0xa54ff53a, 0x510e527f, 0x9b05688c, 0x1f83d9ab, 0x5be0cd19), 0x428a2f98, 0x61626380,
         Working(0x5d6aebcd, 0x6a09e667, 0xbb67ae85, 0x3c6ef372, 0xfa2a4622, 0x510e527f, 0x9b05688c, 0x1f83d9ab));
    Step(1, Working(0x5d6aebcd, 0x6a09e667, 0xbb67ae85, 0x3c6ef372, 0xfa2a4622, 0x510e527f, 0x9b05688c, 0x1f83d9ab), 0x71374491, 0x00000000,
         Working(0x5a6ad9ad, 0x5d6aebcd, 0x6a09e667, 0xbb67ae85, 0x78ce7989, 0xfa2a4622, 0x510e527f, 0x9b05688c));
    Step(2, Working(0x5a6ad9ad, 0x5d6aebcd, 0x6a09e667, 0xbb67ae85, 0x78ce7989, 0xfa2a4622, 0x510e527f, 0x9b05688c), 0xb5c0fbcf, 0x00000000,
         Working(0xc8c347a7, 0x5a6ad9ad, 0x5d6aebcd, 0x6a09e667, 0xf92939eb, 0x78ce7989, 0xfa2a4622, 0x510e527f));
    Step(3, Working(0xc8c347a7, 0x5a6ad9ad, 0x5d6aebcd, 0x6a09e667, 0xf92939eb, 0x78ce7989, 0xfa2a4622, 0x510e527f), 0xe9b5dba5, 0x00000000,
         Working(0xd550f666, 0xc8c347a7, 0x5a6ad9ad, 0x5d6aebcd, 0x24e00850, 0xf92939eb, 0x78ce7989, 0xfa2a4622));
  }

  lemma Rounds4()
    requires Rounds(INITIAL, WORDS, 4) == Working(0xd550f666, 0xc8c347a7, 0x5a6ad9ad, 0x5d6aebcd, 0x24e00850, 0xf92939eb, 0x78ce7989, 0xfa2a4622)
    ensures Rounds(INITIAL, WORDS, 8) == Working(0x85a07b5f, 0xe5030380, 0x2b4209f5, 0x04409a6a, 0x0c657a79, 0x9b27a401, 0x714260ad, 0x43ada245)
  {
    hide RoundConstant, Rounds;
    Constants4();
    Step(4, Working(0xd550f666, 0xc8c347a7, 0x5a6ad9ad, 0x5d6aebcd, 0x24e00850, 0xf92939eb, 0x78ce7989, 0xfa2a4622), 0x3956c25b, 0x00000000,
         Working(0x04409a6a, 0xd550f666, 0xc8c347a7, 0x5a6ad9ad, 0x43ada245, 0x24e00850, 0xf92939eb, 0x78ce7989));
    Step(5, Working(0x04409a6a, 0xd550f666, 0xc8c347a7, 0x5a6ad9ad, 0x43ada245, 0x24e00850, 0xf92939eb, 0x78ce7989), 0x59f111f1, 0x00000000,
         Working(0x2b4209f5, 0x04409a6a, 0xd550f666, 0xc8c347a7, 0x714260ad, 0x43ada245, 0x24e00850, 0xf92939eb));
    Step(6, Working(0x2b4209f5, 0x04409a6a, 0xd550f666, 0xc8c347a7, 0x714260ad, 0x43ada245, 0x24e00850, 0xf92939eb), 0x923f82a4, 0x00000000,
         Working(0xe5030380, 0x2b4209f5, 0x04409a6a, 0xd550f666, 0x9b27a401, 0x714260ad, 0x43ada245, 0x24e00850));
    Step(7, Working(0xe5030380, 0x2b4209f5, 0x04409a6a, 0xd550f666, 0x9b27a401, 0x714260ad, 0x43ada245, 0x24e00850), 0xab1c5ed5, 0x00000000,
         Working(0x85a07b5f, 0xe5030380, 0x2b4209f5, 0x04409a6a, 0x0c657a79, 0x9b27a401, 0x714260ad, 0x43ada245));
  }

  lemma Rounds8()
    requires Rounds(INITIAL, WORDS, 8) == Working(0x85a07b5f, 0xe5030380, 0x2b4209f5, 0x04409a6a, 0x0c657a79, 0x9b27a401, 0x714260ad, 0x43ada245)
    ensures Rounds(INITIAL, WORDS, 12) == Working(0xf71fc5a9, 0x4798a3f4, 0x8c87346b, 0x8e04ecb9, 0x816fd6e9, 0x436b23e8, 0x1cc92596, 0x32ca2d8c)
  {
    hide RoundConstant, Rounds;
    Constants8();
    Step(8, Working(0x85a07b5f, 0xe5030380, 0x2b4209f5, 0x04409a6a, 0x0c657a79, 0x9b27a401, 0x714260ad, 0x43ada245), 0xd807aa98, 0x00000000,
         Working(0x8e04ecb9, 0x85a07b5f, 0xe5030380, 0x2b4209f5, 0x32ca2d8c, 0x0c657a79, 0x9b27a401, 0x714260ad));
    Step(9, Working(0x8e04ecb9, 0x85a07b5f, 0xe5030380, 0x2b4209f5, 0x32ca2d8c, 0x0c657a79, 0x9b27a401, 0x714260ad), 0x12835b01, 0x00000000,
         Working(0x8c87346b, 0x8e04ecb9, 0x85a07b5f, 0xe5030380, 0x1cc92596, 0x32ca2d8c, 0x0c657a79, 0x9b27a401));
    Step(10, Working(0x8c87346b, 0x8e04ecb9, 0x85a07b5f, 0xe5030380, 0x1cc92596, 0x32ca2d8c, 0x0c657a79, 0x9b27a401), 0x243185be, 0x00000000,
         Working(0x4798a3f4, 0x8c87346b, 0x8e04ecb9, 0x85a07b5f, 0x436b23e8, 0x1cc92596, 0x32ca2d8c, 0x0c657a79));
    Step(11, Working(0x4798a3f4, 0x8c87346b, 0x8e04ecb9, 0x85a07b5f, 0x436b23e8, 0x1cc92596, 0x32ca2d8c, 0x0c657a79), 0x550c7dc3, 0x00000000,
         Working(0xf71fc5a9, 0x4798a3f4, 0x8c87346b, 0x8e04ecb9, 0x816fd6e9, 0x436b23e8, 0x1cc92596, 0x32ca2d8c));
  }

  lemma Rounds12()
    requires Rounds(INITIAL, WORDS, 12) == Working(0xf71fc5a9, 0x4798a3f4, 0x8c87346b, 0x8e04ecb9, 0x816fd6e9, 0x436b23e8, 0x1cc92596, 0x32ca2d8c)
    ensures Rounds(INITIAL, WORDS, 16) == Working(0xb0fa238e, 0xc0645fde, 0xd932eb16, 0x87912990, 0x07590dcd, 0x0b92f20c, 0x745a48de, 0x1e578218)
  {
    hide RoundConstant, Rounds;
    Constants12();
    Step(12, Working(0xf71fc5a9, 0x4798a3f4, 0x8c87346b, 0x8e04ecb9, 0x816fd6e9, 0x436b23e8, 0x1cc92596, 0x32ca2d8c), 0x72be5d74, 0x00000000,
         Working(0x87912990, 0xf71fc5a9, 0x4798a3f4, 0x8c87346b, 0x1e578218, 0x816fd6e9, 0x436b23e8, 0x1cc92596));
    Step(13, Working(0x87912990, 0xf71fc5a9, 0x4798a3f4, 0x8c87346b, 0x1e578218, 0x816fd6e9, 0x436b23e8, 0x1cc92596), 0x80deb1fe, 0x00000000,
         Working(0xd932eb16, 0x87912990, 0xf71fc5a9, 0x4798a3f4, 0x745a48de, 0x1e578218, 0x816fd6e9, 0x436b23e8));
    Step(14, Working(0xd932eb16, 0x87912990, 0xf71fc5a9, 0x4798a3f4, 0x745a48de, 0x1e578218, 0x816fd6e9, 0x436b23e8), 0x9bdc06a7, 0x00000000,
         Working(0xc0645fde, 0xd932eb16, 0x87912990, 0xf71fc5a9, 0x0b92f20c, 0x745a48de, 0x1e578218, 0x816fd6e9));
    Step(15, Working(0xc0645fde, 0xd932eb16, 0x87912990, 0xf71fc5a9, 0x0b92f20c, 0x745a48de, 0x1e578218, 0x816fd6e9), 0xc19bf174, 0x00000018,
         Working(0xb0fa238e, 0xc0645fde, 0xd932eb16, 0x87912990, 0x07590dcd, 0x0b92f20c, 0x745a48de, 0x1e578218));
  }

  lemma Rounds16()
    requires Rounds(INITIAL, WORDS, 16) == Working(0xb0fa238e, 0xc0645fde, 0xd932eb16, 0x87912990, 0x07590dcd, 0x0b92f20c, 0x745a48de, 0x1e578218)
    ensures Rounds(INITIAL, WORDS, 20) == Working(0xe1f20c33, 0xfe777bbf, 0xc2fbd9d1, 0x21da9a9b, 0xb0638179, 0xcc899961, 0x846ee454, 0x8034229c)
  {
    hide RoundConstant, Rounds;
    Constants16();
    Step(16, Working(0xb0fa238e, 0xc0645fde, 0xd932eb16, 0x87912990, 0x07590dcd, 0x0b92f20c, 0x745a48de, 0x1e578218), 0xe49b69c1, 0x61626380,
         Working(0x21da9a9b, 0xb0fa238e, 0xc0645fde, 0xd932eb16, 0x8034229c, 0x07590dcd, 0x0b92f20c, 0x745a48de));
    Step(17, Working(0x21da9a9b, 0xb0fa238e, 0xc0645fde, 0xd932eb16, 0x8034229c, 0x07590dcd, 0x0b92f20c, 0x745a48de), 0xefbe4786, 0x000f0000,
         Working(0xc2fbd9d1, 0x21da9a9b, 0xb0fa238e, 0xc0645fde, 0x846ee454, 0x8034229c, 0x07590dcd, 0x0b92f20c));
    Step(18, Working(0xc2fbd9d1, 0x21da9a9b, 0xb0fa238e, 0xc0645fde, 0x846ee454, 0x8034229c, 0x07590dcd, 0x0b92f20c), 0x0fc19dc6, 0x7da86405,
         Working(0xfe777bbf, 0xc2fbd9d1, 0x21da9a9b, 0xb0fa238e, 0xcc899961, 0x846ee454, 0x8034229c, 0x07590dcd));
    Step(19, Working(0xfe777bbf, 0xc2fbd9d1, 0x21da9a9b, 0xb0fa238e, 0xcc899961, 0x846ee454, 0x8034229c, 0x07590dcd), 0x240ca1cc, 0x600003c6,
         Working(0xe1f20c33, 0xfe777bbf, 0xc2fbd9d1, 0x21da9a9b, 0xb0638179, 0xcc899961, 0x846ee454, 0x8034229c));
  }

  lemma Rounds20()
    requires Rounds(INITIAL, WORDS, 20) == Working(0xe1f20c33, 0xfe777bbf, 0xc2fbd9d1, 0x21da9a9b, 0xb0638179, 0xcc899961, 0x846ee454, 0x8034229c)
    ensures Rounds(INITIAL, WORDS, 24) == Working(0xc5d53d8d, 0xa7a3623f, 0xc2606d6d, 0x9dc68b63, 0xaa47c347, 0x49f5114a, 0xe1257970, 0x8ada8930)
  {
    hide RoundConstant, Rounds;
    Constants20();
    Step(20, Working(0xe1f20c33, 0xfe777bbf, 0xc2fbd9d1, 0x21da9a9b, 0xb0638179, 0xcc899961, 0x846ee454, 0x8034229c), 0x2de92c6f, 0x3e9d7b78,
         Working(0x9dc68b63, 0xe1f20c33, 0xfe777bbf, 0xc2fbd9d1, 0x8ada8930, 0xb0638179, 0xcc899961, 0x846ee454));
    Step(21, Working(0x9dc68b63, 0xe1f20c33, 0xfe777bbf, 0xc2fbd9d1, 0x8ada8930, 0xb0638179, 0xcc899961, 0x846ee454), 0x4a7484aa, 0x0183fc00,
         Working(0xc2606d6d, 0x9dc68b63, 0xe1f20c33, 0xfe777bbf, 0xe1257970, 0x8ada8930, 0xb0638179, 0xcc899961));
    Step(22, Working(0xc2606d6d, 0x9dc68b63, 0xe1f20c33, 0xfe777bbf, 0xe1257970, 0x8ada8930, 0xb0638179, 0xcc899961), 0x5cb0a9dc, 0x12dcbfdb,
         Working(0xa7a3623f, 0xc2606d6d, 0x9dc68b63, 0xe1f20c33, 0x49f5114a, 0xe1257970, 0x8ada8930, 0xb0638179));
    Step(23, Working(0xa7a3623f, 0xc2606d6d, 0x9dc68b63, 0xe1f20c33, 0x49f5114a, 0xe1257970, 0x8ada8930, 0xb0638179), 0x76f988da, 0xe2e2c38e,
         Working(0xc5d53d8d, 0xa7a3623f, 0xc2606d6d, 0x9dc68b63, 0xaa47c347, 0x49f5114a, 0xe1257970, 0x8ada8930));
  }

  lemma Rounds24()
    requires Rounds(INITIAL, WORDS, 24) == Working(0xc5d53d8d, 0xa7a3623f, 0xc2606d6d, 0x9dc68b63, 0xaa47c347, 0x49f5114a, 0xe1257970, 0x8ada8930)
    ensures Rounds(INITIAL, WORDS, 28) == Working(0x77d37528, 0xb62ec4bc, 0xcde8037d, 0x1c2c2838, 0xedffbff8, 0xc74c6516, 0x14383d8e, 0x2823ef91)
  {
    hide RoundConstant, Rounds;
    Constants24();
    Step(24, Working(0xc5d53d8d, 0xa7a3623f, 0xc2606d6d, 0x9dc68b63, 0xaa47c347, 0x49f5114a, 0xe1257970, 0x8ada8930), 0x983e5152, 0xc8215c1a,
         Working(0x1c2c2838, 0xc5d53d8d, 0xa7a3623f, 0xc2606d6d, 0x2823ef91, 0xaa47c347, 0x49f5114a, 0xe1257970));
    Step(25, Working(0x1c2c2838, 0xc5d53d8d, 0xa7a3623f, 0xc2606d6d, 0x2823ef91, 0xaa47c347, 0x49f5114a, 0xe1257970), 0xa831c66d, 0xb73679a2,
         Working(0xcde8037d, 0x1c2c2838, 0xc5d53d8d, 0xa7a3623f, 0x14383d8e, 0x2823ef91, 0xaa47c347, 0x49f5114a));
    Step(26, Working(0xcde8037d, 0x1c2c2838, 0xc5d53d8d, 0xa7a3623f, 0x14383d8e, 0x2823ef91, 0xaa47c347, 0x49f5114a), 0xb00327c8, 0xe5bc3909,
         Working(0xb62ec4bc, 0xcde8037d, 0x1c2c2838, 0xc5d53d8d, 0xc74c6516, 0x14383d8e, 0x2823ef91, 0xaa47c347));
    Step(27, Working(0xb62ec4bc, 0xcde8037d, 0x1c2c2838, 0xc5d53d8d, 0xc74c6516, 0x14383d8e, 0x2823ef91, 0xaa47c347), 0xbf597fc7, 0x32663c5b,
         Working(0x77d37528, 0xb62ec4bc, 0xcde8037d, 0x1c2c2838, 0xedffbff8, 0xc74c6516, 0x14383d8e, 0x2823ef91));
  }

  lemma Rounds28()
    requires Rounds(INITIAL, WORDS, 28) == Working(0x77d37528, 0xb62ec4bc, 0xcde8037d, 0x1c2c2838, 0xedffbff8, 0xc74c6516, 0x14383d8e, 0x2823ef91)
    ensures Rounds(INITIAL, WORDS, 32) == Working(0x73b33bf5, 0xea992a22, 0xa0060b30, 0x363482c9, 0xba591112, 0x0109ab3a, 0xade79437, 0x6112a3b7)
  {
    hide RoundConstant, Rounds;
    Constants28();
    Step(28, Working(0x77d37528, 0xb62ec4bc, 0xcde8037d, 0x1c2c2838, 0xedffbff8, 0xc74c6516, 0x14383d8e, 0x2823ef91), 0xc6e00bf3, 0x9d209d67,
         Working(0x363482c9, 0x77d37528, 0xb62ec4bc, 0xcde8037d, 0x6112a3b7, 0xedffbff8, 0xc74c6516, 0x14383d8e));
    Step(29, Working(0x363482c9, 0x77d37528, 0xb62ec4bc, 0xcde8037d, 0x6112a3b7, 0xedffbff8, 0xc74c6516, 0x14383d8e), 0xd5a79147, 0xec8726cb,
         Working(0xa0060b30, 0x363482c9, 0x77d37528, 0xb62ec4bc, 0xade79437, 0x6112a3b7, 0xedffbff8, 0xc74c6516));
    Step(30, Working(0xa0060b30, 0x363482c9, 0x77d37528, 0xb62ec4bc, 0xade79437, 0x6112a3b7, 0xedffbff8, 0xc74c6516), 0x06ca6351, 0x702138a4,
         Working(0xea992a22, 0xa0060b30, 0x363482c9, 0x77d37528, 0x0109ab3a, 0xade79437, 0x6112a3b7, 0xedffbff8));
    Step(31, Working(0xea992a22, 0xa0060b30, 0x363482c9, 0x77d37528, 0x0109ab3a, 0xade79437, 0x6112a3b7, 0xedffbff8), 0x14292967, 0xd3b7973b,
         Working(0x73b33bf5, 0xea992a22, 0xa0060b30, 0x363482c9, 0xba591112, 0x0109ab3a, 0xade79437, 0x6112a3b7));
  }

  lemma Rounds32()
    requires Rounds(INITIAL, WORDS, 32) == Working(0x73b33bf5, 0xea992a22, 0xa0060b30, 0x363482c9, 0xba591112, 0x0109ab3a, 0xade79437, 0x6112a3b7)
    ensures Rounds(INITIAL, WORDS, 36) == Working(0x65a0cfe4, 0xa9a7738c, 0xfe604df5, 0x98e12507, 0xf4b002d6, 0x085f3833, 0x59249dd3, 0x9cd9f5f6)
  {
    hide RoundConstant, Rounds;
    Constants32();
    Step(32, Working(0x73b33bf5, 0xea992a22, 0xa0060b30, 0x363482c9, 0xba591112, 0x0109ab3a, 0xade79437, 0x6112a3b7), 0x27b70a85, 0x93f5997f,
         Working(0x98e12507, 0x73b33bf5, 0xea992a22, 0xa0060b30, 0x9cd9f5f6, 0xba591112, 0x0109ab3a, 0xade79437));
    Step(33, Working(0x98e12507, 0x73b33bf5, 0xea992a22, 0xa0060b30, 0x9cd9f5f6, 0xba591112, 0x0109ab3a, 0xade79437), 0x2e1b2138, 0x3b68ba73,
         Working(0xfe604df5, 0x98e12507, 0x73b33bf5, 0xea992a22, 0x59249dd3, 0x9cd9f5f6, 0xba591112, 0x0109ab3a));
    Step(34, Working(0xfe604df5, 0x98e12507, 0x73b33bf5, 0xea992a22, 0x59249dd3, 0x9cd9f5f6, 0xba591112, 0x0109ab3a), 0x4d2c6dfc, 0xaff4ffc1,
         Working(0xa9a7738c, 0xfe604df5, 0x98e12507, 0x73b33bf5, 0x085f3833, 0x59249dd3, 0x9cd9f5f6, 0xba591112));
    Step(35, Working(0xa9a7738c, 0xfe604df5, 0x98e12507, 0x73b33bf5, 0x085f3833, 0x59249dd3, 0x9cd9f5f6, 0xba591112), 0x53380d13, 0xf10a5c62,
         Working(0x65a0cfe4, 0xa9a7738c, 0xfe604df5, 0x98e12507, 0xf4b002d6, 0x085f3833, 0x59249dd3, 0x9cd9f5f6));
  }

  lemma Rounds36()
    requires Rounds(INITIAL, WORDS, 36) == Working(0x65a0cfe4, 0xa9a7738c, 0xfe604df5, 0x98e12507, 0xf4b002d6, 0x085f3833, 0x59249dd3, 0x9cd9f5f6)
    ensures Rounds(INITIAL, WORDS, 40) == Working(0x79ea687a, 0x6dc57a8a, 0x34df1604, 0x41a65cb1, 0x1efbc0a0, 0xf0781bc8, 0xa507a53d, 0x0772a26b)
  {
    hide RoundConstant, Rounds;
    Constants36();
    Step(36, Working(0x65a0cfe4, 0xa9a7738c, 0xfe604df5, 0x98e12507, 0xf4b002d6, 0x085f3833, 0x59249dd3, 0x9cd9f5f6), 0x650a7354, 0x0a8b3996,
         Working(0x41a65cb1, 0x65a0cfe4, 0xa9a7738c, 0xfe604df5, 0x0772a26b, 0xf4b002d6, 0x085f3833, 0x59249dd3));
    Step(37, Working(0x41a65cb1, 0x65a0cfe4, 0xa9a7738c, 0xfe604df5, 0x0772a26b, 0xf4b002d6, 0x085f3833, 0x59249dd3), 0x766a0abb, 0x72af830a,
         Working(0x34df1604, 0x41a65cb1, 0x65a0cfe4, 0xa9a7738c, 0xa507a53d, 0x0772a26b, 0xf4b002d6, 0x085f3833));
    Step(38, Working(0x34df1604, 0x41a65cb1, 0x65a0cfe4, 0xa9a7738c, 0xa507a53d, 0x0772a26b, 0xf4b002d6, 0x085f3833), 0x81c2c92e, 0x9409e33e,
         Working(0x6dc57a8a, 0x34df1604, 0x41a65cb1, 0x65a0cfe4, 0xf0781bc8, 0xa507a53d, 0x0772a26b, 0xf4b002d6));
    Step(39, Working(0x6dc57a8a, 0x34df1604, 0x41a65cb1, 0x65a0cfe4, 0xf0781bc8, 0xa507a53d, 0x0772a26b, 0xf4b002d6), 0x92722c85, 0x24641522,
         Working(0x79ea687a, 0x6dc57a8a, 0x34df1604, 0x41a65cb1, 0x1efbc0a0, 0xf0781bc8, 0xa507a53d, 0x0772a26b));
  }

  lemma Rounds40()
    requires Rounds(INITIAL, WORDS, 40) == Working(0x79ea687a, 0x6dc57a8a, 0x34df1604, 0x41a65cb1, 0x1efbc0a0, 0xf0781bc8, 0xa507a53d, 0x0772a26b)
    ensures Rounds(INITIAL, WORDS, 44) == Working(0x9d4baf93, 0x17aa0dfe, 0xdf46652f, 0xd6670766, 0xfda24c2e, 0xdecd4715, 0x838b2711, 0x26352d63)
  {
    hide RoundConstant, Rounds;
    Constants40();
    Step(40, Working(0x79ea687a, 0x6dc57a8a, 0x34df1604, 0x41a65cb1, 0x1efbc0a0, 0xf0781bc8, 0xa507a53d, 0x0772a26b), 0xa2bfe8a1, 0x9f47bf94,
         Working(0xd6670766, 0x79ea687a, 0x6dc57a8a, 0x34df1604, 0x26352d63, 0x1efbc0a0, 0xf0781bc8, 0xa507a53d));
    Step(41, Working(0xd6670766, 0x79ea687a, 0x6dc57a8a, 0x34df1604, 0x26352d63, 0x1efbc0a0, 0xf0781bc8, 0xa507a53d), 0xa81a664b, 0xf0a64f5a,
         Working(0xdf46652f, 0xd6670766, 0x79ea687a, 0x6dc57a8a, 0x838b2711, 0x26352d63, 0x1efbc0a0, 0xf0781bc8));
    Step(42, Working(0xdf46652f, 0xd6670766, 0x79ea687a, 0x6dc57a8a, 0x838b2711, 0x26352d63, 0x1efbc0a0, 0xf0781bc8), 0xc24b8b70, 0x3e246a79,
         Working(0x17aa0dfe, 0xdf46652f, 0xd6670766, 0x79ea687a, 0xdecd4715, 0x838b2711, 0x26352d63, 0x1efbc0a0));
    Step(43, Working(0x17aa0dfe, 0xdf46652f, 0xd6670766, 0x79ea687a, 0xdecd4715, 0x838b2711, 0x26352d63, 0x1efbc0a0), 0xc76c51a3, 0x27333ba3,
         Working(0x9d4baf93, 0x17aa0dfe, 0xdf46652f, 0xd6670766, 0xfda24c2e, 0xdecd4715, 0x838b2711, 0x26352d63));
  }

  lemma Rounds44()
    requires Rounds(INITIAL, WORDS, 44) == Working(0x9d4baf93, 0x17aa0dfe, 0xdf46652f, 0xd6670766, 0xfda24c2e, 0xdecd4715, 0x838b2711, 0x26352d63)
    ensures Rounds(INITIAL, WORDS, 48) == Working(0x4172328d, 0xa14c14b0, 0x72ab4b91, 0x26628815, 0xfecf0bc6, 0xd57b94a9, 0xb7755da1, 0xa80f11f0)
  {
    hide RoundConstant, Rounds;
    Constants44();
    Step(44, Working(0x9d4baf93, 0x17aa0dfe, 0xdf46652f, 0xd6670766, 0xfda24c2e, 0xdecd4715, 0x838b2711, 0x26352d63), 0xd192e819, 0x0c4763f2,
         Working(0x26628815, 0x9d4baf93, 0x17aa0dfe, 0xdf46652f, 0xa80f11f0, 0xfda24c2e, 0xdecd4715, 0x838b2711));
    Step(45, Working(0x26628815, 0x9d4baf93, 0x17aa0dfe, 0xdf46652f, 0xa80f11f0, 0xfda24c2e, 0xdecd4715, 0x838b2711), 0xd6990624, 0x840abf27,
         Working(0x72ab4b91, 0x26628815, 0x9d4baf93, 0x17aa0dfe, 0xb7755da1, 0xa80f11f0, 0xfda24c2e, 0xdecd4715));
    Step(46, Working(0x72ab4b91, 0x26628815, 0x9d4baf93, 0x17aa0dfe, 0xb7755da1, 0xa80f11f0, 0xfda24c2e, 0xdecd4715), 0xf40e3585, 0x7a290d5d,
         Working(0xa14c14b0, 0x72ab4b91, 0x26628815, 0x9d4baf93, 0xd57b94a9, 0xb7755da1, 0xa80f11f0, 0xfda24c2e));
    Step(47, Working(0xa14c14b0, 0x72ab4b91, 0x26628815, 0x9d4baf93, 0xd57b94a9, 0xb7755da1, 0xa80f11f0, 0xfda24c2e), 0x106aa070, 0x065c43da,
         Working(0x4172328d, 0xa14c14b0, 0x72ab4b91, 0x26628815, 0xfecf0bc6, 0xd57b94a9, 0xb7755da1, 0xa80f11f0));
  }

  lemma Rounds48()
    requires Rounds(INITIAL, WORDS, 48) == Working(0x4172328d, 0xa14c14b0, 0x72ab4b91, 0x26628815, 0xfecf0bc6, 0xd57b94a9, 0xb7755da1, 0xa80f11f0)
    ensures Rounds(INITIAL, WORDS, 52) == Working(0x886e7a22, 0x7a0508a1, 0xf11bfaa8, 0x05757ceb, 0x49231c1e, 0x52f1ccf7, 0x6e5c390c, 0xbd714038)
  {
    hide RoundConstant, Rounds;
    Constants48();
    Step(48, Working(0x4172328d, 0xa14c14b0, 0x72ab4b91, 0x26628815, 0xfecf0bc6, 0xd57b94a9, 0xb7755da1, 0xa80f11f0), 0x19a4c116, 0xfb3e89cb,
         Working(0x05757ceb, 0x4172328d, 0xa14c14b0, 0x72ab4b91, 0xbd714038, 0xfecf0bc6, 0xd57b94a9, 0xb7755da1));
    Step(49, Working(0x05757ceb, 0x4172328d, 0xa14c14b0, 0x72ab4b91, 0xbd714038, 0xfecf0bc6, 0xd57b94a9, 0xb7755da1), 0x1e376c08, 0xcc7617db,
         Working(0xf11bfaa8, 0x05757ceb, 0x4172328d, 0xa14c14b0, 0x6e5c390c, 0xbd714038, 0xfecf0bc6, 0xd57b94a9));
    Step(50, Working(0xf11bfaa8, 0x05757ceb, 0x4172328d, 0xa14c14b0, 0x6e5c390c, 0xbd714038, 0xfecf0bc6, 0xd57b94a9), 0x2748774c, 0xb9e66c34,
         Working(0x7a0508a1, 0xf11bfaa8, 0x05757ceb, 0x4172328d, 0x52f1ccf7, 0x6e5c390c, 0xbd714038, 0xfecf0bc6));
    Step(51, Working(0x7a0508a1, 0xf11bfaa8, 0x05757ceb, 0x4172328d, 0x52f1ccf7, 0x6e5c390c, 0xbd714038, 0xfecf0bc6), 0x34b0bcb5, 0xa9993667,
         Working(0x886e7a22, 0x7a0508a1, 0xf11bfaa8, 0x05757ceb, 0x49231c1e, 0x52f1ccf7, 0x6e5c390c, 0xbd714038));
  }

  lemma Rounds52()
    requires Rounds(INITIAL, WORDS, 52) == Working(0x886e7a22, 0x7a0508a1, 0xf11bfaa8, 0x05757ceb, 0x49231c1e, 0x52f1ccf7, 0x6e5c390c, 0xbd714038)
    ensures Rounds(INITIAL, WORDS, 56) == Working(0x38cc9913, 0x3ec45cdb, 0xf5702fdb, 0x101fd28f, 0x54cb266b, 0xe50e1b4f, 0x9f4787c3, 0x529e7d00)
  {
    hide RoundConstant, Rounds;
    Constants52();
    Step(52, Working(0x886e7a22, 0x7a0508a1, 0xf11bfaa8, 0x05757ceb, 0x49231c1e, 0x52f1ccf7, 0x6e5c390c, 0xbd714038), 0x391c0cb3, 0x84badedd,
         Working(0x101fd28f, 0x886e7a22, 0x7a0508a1, 0xf11bfaa8, 0x529e7d00, 0x49231c1e, 0x52f1ccf7, 0x6e5c390c));
    Step(53, Working(0x101fd28f, 0x886e7a22, 0x7a0508a1, 0xf11bfaa8, 0x529e7d00, 0x49231c1e, 0x52f1ccf7, 0x6e5c390c), 0x4ed8aa4a, 0xc21462bc,
         Working(0xf5702fdb, 0x101fd28f, 0x886e7a22, 0x7a0508a1, 0x9f4787c3, 0x529e7d00, 0x49231c1e, 0x52f1ccf7));
    Step(54, Working(0xf5702fdb, 0x101fd28f, 0x886e7a22, 0x7a0508a1, 0x9f4787c3, 0x529e7d00, 0x49231c1e, 0x52f1ccf7), 0x5b9cca4f, 0x1487472c,
         Working(0x3ec45cdb, 0xf5702fdb, 0x101fd28f, 0x886e7a22, 0xe50e1b4f, 0x9f4787c3, 0x529e7d00, 0x49231c1e));
    Step(55, Working(0x3ec45cdb, 0xf5702fdb, 0x101fd28f, 0x886e7a22, 0xe50e1b4f, 0x9f4787c3, 0x529e7d00, 0x49231c1e), 0x682e6ff3, 0xb20f7a99,
         Working(0x38cc9913, 0x3ec45cdb, 0xf5702fdb, 0x101fd28f, 0x54cb266b, 0xe50e1b4f, 0x9f4787c3, 0x529e7d00));
  }

  lemma Rounds56()
    requires Rounds(INITIAL, WORDS, 56) == Working(0x38cc9913, 0x3ec45cdb, 0xf5702fdb, 0x101fd28f, 0x54cb266b, 0xe50e1b4f, 0x9f4787c3, 0x529e7d00)
    ensures Rounds(INITIAL, WORDS, 60) == Working(0xb6ae8fff, 0xffb70472, 0xc062d46f, 0xfcd1887b, 0xb21bad3d, 0x6d83bfc6, 0x7e44008e, 0x9b5e906c)
  {
    hide RoundConstant, Rounds;
    Constants56();
    Step(56, Working(0x38cc9913, 0x3ec45cdb, 0xf5702fdb, 0x101fd28f, 0x54cb266b, 0xe50e1b4f, 0x9f4787c3, 0x529e7d00), 0x748f82ee, 0xef57b9cd,
         Working(0xfcd1887b, 0x38cc9913, 0x3ec45cdb, 0xf5702fdb, 0x9b5e906c, 0x54cb266b, 0xe50e1b4f, 0x9f4787c3));
    Step(57, Working(0xfcd1887b, 0x38cc9913, 0x3ec45cdb, 0xf5702fdb, 0x9b5e906c, 0x54cb266b, 0xe50e1b4f, 0x9f4787c3), 0x78a5636f, 0xebe6b238,
         Working(0xc062d46f, 0xfcd1887b, 0x38cc9913, 0x3ec45cdb, 0x7e44008e, 0x9b5e906c, 0x54cb266b, 0xe50e1b4f));
    Step(58, Working(0xc062d46f, 0xfcd1887b, 0x38cc9913, 0x3ec45cdb, 0x7e44008e, 0x9b5e906c, 0x54cb266b, 0xe50e1b4f), 0x84c87814, 0x9fe3095e,
         Working(0xffb70472, 0xc062d46f, 0xfcd1887b, 0x38cc9913, 0x6d83bfc6, 0x7e44008e, 0x9b5e906c, 0x54cb266b));
    Step(59, Working(0xffb70472, 0xc062d46f, 0xfcd1887b, 0x38cc9913, 0x6d83bfc6, 0x7e44008e, 0x9b5e906c, 0x54cb266b), 0x8cc70208, 0x78bc8d4b,
         Working(0xb6ae8fff, 0xffb70472, 0xc062d46f, 0xfcd1887b, 0xb21bad3d, 0x6d83bfc6, 0x7e44008e, 0x9b5e906c));
  }

  lemma Rounds60()
    requires Rounds(INITIAL, WORDS, 60) == Working(0xb6ae8fff, 0xffb70472, 0xc062d46f, 0xfcd1887b, 0xb21bad3d, 0x6d83bfc6, 0x7e44008e, 0x9b5e906c)
    ensures Rounds(INITIAL, WORDS, 64) == Working(0x506e3058, 0xd39a2165, 0x04d24d6c, 0xb85e2ce9, 0x5ef50f24, 0xfb121210, 0x948d25b6, 0x961f4894)
  {
    hide RoundConstant, Rounds;
    Constants60();
    Step(60, Working(0xb6ae8fff, 0xffb70472, 0xc062d46f, 0xfcd1887b, 0xb21bad3d, 0x6d83bfc6, 0x7e44008e, 0x9b5e906c), 0x90befffa, 0xa43fcf15,
         Working(0xb85e2ce9, 0xb6ae8fff, 0xffb70472, 0xc062d46f, 0x961f4894, 0xb21bad3d, 0x6d83bfc6, 0x7e44008e));
    Step(61, Working(0xb85e2ce9, 0xb6ae8fff, 0xffb70472, 0xc062d46f, 0x961f4894, 0xb21bad3d, 0x6d83bfc6, 0x7e44008e), 0xa4506ceb, 0x668b2ff8,
         Working(0x04d24d6c, 0xb85e2ce9, 0xb6ae8fff, 0xffb70472, 0x948d25b6, 0x961f4894, 0xb21bad3d, 0x6d83bfc6));
    Step(62, Working(0x04d24d6c, 0xb85e2ce9, 0xb6ae8fff, 0xffb70472, 0x948d25b6, 0x961f4894, 0xb21bad3d, 0x6d83bfc6), 0xbef9a3f7, 0xeeaba2cc,
         Working(0xd39a2165, 0x04d24d6c, 0xb85e2ce9, 0xb6ae8fff, 0xfb121210, 0x948d25b6, 0x961f4894, 0xb21bad3d));
    Step(63, Working(0xd39a2165, 0x04d24d6c, 0xb85e2ce9, 0xb6ae8fff, 0xfb121210, 0x948d25b6, 0x961f4894, 0xb21bad3d), 0xc67178f2, 0x12b1edeb,
         Working(0x506e3058, 0xd39a2165, 0x04d24d6c, 0xb85e2ce9, 0x5ef50f24, 0xfb121210, 0x948d25b6, 0x961f4894));
  }

  lemma AllRounds()
    ensures Rounds(INITIAL, WORDS, 64) == Working(0x506e3058, 0xd39a2165, 0x04d24d6c, 0xb85e2ce9, 0x5ef50f24, 0xfb121210, 0x948d25b6, 0x961f4894)
  {
    hide *;
    Rounds0();
    Rounds4();
    Rounds8();
    Rounds12();
    Rounds16();
    Rounds20();
    Rounds24();
    Rounds28();
    Rounds32();
    Rounds36();
    Rounds40();
    Rounds44();
    Rounds48();
    Rounds52();
    Rounds56();
    Rounds60();
  }

  // ----- The block -----

  const BLOCK_OF_ABC: seq<byte> :=
    [0x61, 0x62, 0x63, 0x80, 0, 0, 0, 0] + [0, 0, 0, 0, 0, 0, 0, 0] + [0, 0, 0, 0, 0, 0, 0, 0] + [0, 0, 0, 0, 0, 0, 0, 0]
    + [0, 0, 0, 0, 0, 0, 0, 0] + [0, 0, 0, 0, 0, 0, 0, 0] + [0, 0, 0, 0, 0, 0, 0, 0] + [0, 0, 0, 0, 0, 0, 0, 24]

  lemma LengthIs()
    ensures LengthBytes(24) == [0, 0, 0, 0, 0, 0, 0, 24]
  {
    assert Power256(0) == 1 && 24 / 1 % 256 == 24;
    forall k: nat | 1 <= k < 8 ensures 24 / Power256(k) % 256 == 0 { Exceeds(k); }
  }

  lemma {:induction false} Exceeds(k: nat)
    requires k >= 1
    ensures Power256(k) >= 256 && 24 / Power256(k) == 0
  {
    assert Power256(k) == 256 * Power256(k - 1);
    var p := Power256(k);
    Quotient(24, p, 0, 24);
  }

  lemma PadsToOneBlock()
    ensures Padded(ABC) == BLOCK_OF_ABC
  {
    LengthIs();
    assert Zeros(52) == BLOCK_OF_ABC[4..56];
    assert [0, 0, 0, 0, 0, 0, 0, 24] == BLOCK_OF_ABC[56..];
    assert ABC + [0x80] == BLOCK_OF_ABC[..4];
  }

  const DIGEST := Working(0xba7816bf, 0x8f01cfea, 0x414140de, 0x5dae2223, 0xb00361a3, 0x96177a9c, 0xb410ff61, 0xf20015ad)

  lemma WordsAre()
    ensures Words(BLOCK_OF_ABC) == WORDS[..16]
  {
    forall j | 0 <= j < 16 ensures Words(BLOCK_OF_ABC)[j] == WORDS[j] {
      WordIs(j);
    }
  }

  lemma BytesAre(i: nat)
    requires i < 64
    ensures |BLOCK_OF_ABC| == 64
    ensures BLOCK_OF_ABC[i] == if i == 0 then 0x61 else if i == 1 then 0x62 else if i == 2 then 0x63 else if i == 3 then 0x80
                               else if i == 63 then 24 else 0
  {
  }

  lemma WordIs(j: nat)
    requires j < 16
    ensures |WORDS| == 64 && |BLOCK_OF_ABC| == 64 && Partial(BLOCK_OF_ABC, j, 4) == WORDS[j]
  {
    hide *;
    SixtyFour();
    FirstWords(j);
    BytesAre(4 * j);
    BytesAre(4 * j + 1);
    BytesAre(4 * j + 2);
    BytesAre(4 * j + 3);
    Shifts();
    FourBytes(BLOCK_OF_ABC, j);
  }

  lemma FirstWords(j: nat)
    requires j < 16
    ensures |WORDS| == 64 && WORDS[j] == if j == 0 then 0x61626380 else if j == 15 then 24 else 0
  {
  }

  lemma FourBytes(b: seq<byte>, j: nat)
    requires 4 * j + 4 <= |b|
    ensures Partial(b, j, 4)
         == 0 | ShiftedIn(b[4 * j], 0) | ShiftedIn(b[4 * j + 1], 1) | ShiftedIn(b[4 * j + 2], 2) | ShiftedIn(b[4 * j + 3], 3)
  {
    hide *;
    OneByte(b, j, 0);
    OneByte(b, j, 1);
    OneByte(b, j, 2);
    OneByte(b, j, 3);
  }

  lemma OneByte(b: seq<byte>, j: nat, r: nat)
    requires r < 4 && 4 * j + 4 <= |b|
    ensures Partial(b, j, 0) == 0 && Partial(b, j, r + 1) == Partial(b, j, r) | ShiftedIn(b[4 * j + r], r)
  {
    hide ShiftedIn;
  }

  lemma Shifts()
    ensures ShiftedIn(0x61, 0) == 0x61000000 && ShiftedIn(0x62, 1) == 0x620000 && ShiftedIn(0x63, 2) == 0x6300
    ensures ShiftedIn(0x80, 3) == 0x80 && ShiftedIn(24, 3) == 24
    ensures forall r: nat :: r < 4 ==> ShiftedIn(0, r) == 0
  {
  }

  /** The hash of "abc" is the one the standard publishes. */
  lemma HashOfAbc()
    ensures Hash(Padded(ABC), 1) == DIGEST
  {
    hide *;
    PadsToOneBlock();
    WordsAre();
    ScheduleIs(64);
    AllRounds();
    OneBlock();
  }

  lemma OneBlock()
    requires Words(BLOCK_OF_ABC) == WORDS[..16] && Schedule(WORDS[..16], 64) == WORDS[..64]
    requires Rounds(INITIAL, WORDS, 64) == Working(0x506e3058, 0xd39a2165, 0x04d24d6c, 0xb85e2ce9, 0x5ef50f24, 0xfb121210, 0x948d25b6, 0x961f4894)
    ensures Hash(BLOCK_OF_ABC, 1) == DIGEST
  {
    hide Schedule, Words, Rounds;
    NoBlocks(BLOCK_OF_ABC);
    OneMoreBlock(BLOCK_OF_ABC, 0);
    assert BlockAt(BLOCK_OF_ABC, 0) == BLOCK_OF_ABC;
    assert WORDS[..64] == WORDS;
  }

  // ----- The digest as text -----

  lemma Powers()
    ensures Power16(0) == 1 && Power16(1) == 0x10 && Power16(2) == 0x100 && Power16(3) == 0x1000 && Power16(4) == 0x1_0000
    ensures Power16(5) == 0x10_0000 && Power16(6) == 0x100_0000 && Power16(7) == 0x1000_0000
  {
  }

  lemma Digits(v: nat)
    ensures HexOf(v) == [HexDigit(v / 0x1000_0000 % 16), HexDigit(v / 0x100_0000 % 16), HexDigit(v / 0x10_0000 % 16),
                         HexDigit(v / 0x1_0000 % 16), HexDigit(v / 0x1000 % 16), HexDigit(v / 0x100 % 16),
                         HexDigit(v / 0x10 % 16), HexDigit(v % 16)]
  {
    hide HexDigit;
    Powers();
    assert v / 1 == v;
  }

  lemma Hex0()
    ensures Hex(DIGEST.a) == "ba7816bf"
  {
    hide HexOf;
    Digits(0xba7816bf);
  }

  lemma Hex1()
    ensures Hex(DIGEST.b) == "8f01cfea"
  {
    hide HexOf;
    Digits(0x8f01cfea);
  }

  lemma Hex2()
    ensures Hex(DIGEST.c) == "414140de"
  {
    hide HexOf;
    Digits(0x414140de);
  }

  lemma Hex3()
    ensures Hex(DIGEST.d) == "5dae2223"
  {
    hide HexOf;
    Digits(0x5dae2223);
  }

  lemma Hex4()
    ensures Hex(DIGEST.e) == "b00361a3"
  {
    hide HexOf;
    Digits(0xb00361a3);
  }

  lemma Hex5()
    ensures Hex(DIGEST.f) == "96177a9c"
  {
    hide HexOf;
    Digits(0x96177a9c);
  }

  lemma Hex6()
    ensures Hex(DIGEST.g) == "b410ff61"
  {
    hide HexOf;
    Digits(0xb410ff61);
  }

  lemma Hex7()
    ensures Hex(DIGEST.h) == "f20015ad"
  {
    hide HexOf;
    Digits(0xf20015ad);
  }

  /** The text of that digest. */
  lemma TextOfAbc()
    ensures var h := Hash(Padded(ABC), 1);
      && BlockCount(|ABC|) == 1
      && Hex(h.a) == "ba7816bf" && Hex(h.b) == "8f01cfea"
      && Hex(h.c) == "414140de" && Hex(h.d) == "5dae2223"
      && Hex(h.e) == "b00361a3" && Hex(h.f) == "96177a9c"
      && Hex(h.g) == "b410ff61" && Hex(h.h) == "f20015ad"
  {
    hide *;
    HashOfAbc();
    CountIs();
    Hex0();
    Hex1();
    Hex2();
    Hex3();
    Hex4();
    Hex5();
    Hex6();
    Hex7();
  }

  lemma CountIs()
    ensures BlockCount(|ABC|) == 1
  {
  }
}
