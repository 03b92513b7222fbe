/** The example of FIPS 180-2, appendix B.1: the digest of "abc", followed from word to word and from round
    to round. It fixes the constants, the rotation amounts and the order of bytes once and for all. */
module Sha256Example {
  import opened Bytes
  import opened Sha256Standard
  import opened Sha256

  const ABC: seq<Byte> := [0x61, 0x62, 0x63]

  /** The one padded block. */
  const BLOCK: seq<Byte> := [0x61, 0x62, 0x63, 0x80] + Zeros(59) + [0x18]

  lemma Padded()
    ensures Pad(ABC) == BLOCK
  {
    CountBytes();
    assert Zeros(52) + [0, 0, 0, 0, 0, 0, 0] == Zeros(59);
  }

  lemma CountBytes()
    ensures BigEndian(24, 8) == [0, 0, 0, 0, 0, 0, 0] + [0x18]
  {
    var count := BigEndian(24, 8);
    assert ByteAt(24, 0) == 0x18;
    forall j | 0 <= j < 7 ensures count[j] == 0 {
      assert ByteAt(24, 7 - j) == ByteAt(24 / 256, 6 - j);
      ZeroBytes(6 - j);
    }
  }

  lemma {:induction false} ZeroBytes(i: nat)
    ensures ByteAt(0, i) == 0
  {
    if i > 0 { ZeroBytes(i - 1); }
  }

  // ----- the message schedule

  /** One word of the schedule from four earlier ones. */
  lemma Word(t: nat, a: Word, b: Word, c: Word, d: Word, w: Word)
    requires 16 <= t < 64
    requires W(BLOCK, t - 2) == a && W(BLOCK, t - 7) == b && W(BLOCK, t - 15) == c && W(BLOCK, t - 16) == d
    requires w == Sum(SmallSigma1(a), b, SmallSigma0(c), d)
    ensures W(BLOCK, t) == w
  {
  }

  lemma Words0()
    ensures W(BLOCK, 0) == 0x61626380 && W(BLOCK, 1) == 0x00000000 && W(BLOCK, 2) == 0x00000000 &&
      W(BLOCK, 3) == 0x00000000
    ensures W(BLOCK, 4) == 0x00000000 && W(BLOCK, 5) == 0x00000000 && W(BLOCK, 6) == 0x00000000 &&
      W(BLOCK, 7) == 0x00000000
    ensures W(BLOCK, 8) == 0x00000000 && W(BLOCK, 9) == 0x00000000 && W(BLOCK, 10) == 0x00000000 &&
      W(BLOCK, 11) == 0x00000000
    ensures W(BLOCK, 12) == 0x00000000 && W(BLOCK, 13) == 0x00000000 && W(BLOCK, 14) == 0x00000000 &&
      W(BLOCK, 15) == 0x00000018
  {
    hide W;
    FirstWord(0);
    FirstWord(1);
    FirstWord(2);
    FirstWord(3);
    FirstWord(4);
    FirstWord(5);
    FirstWord(6);
    FirstWord(7);
    FirstWord(8);
    FirstWord(9);
    FirstWord(10);
    FirstWord(11);
    FirstWord(12);
    FirstWord(13);
    FirstWord(14);
    FirstWord(15);
  }

  lemma FirstWord(t: nat)
    requires t < 16
    ensures W(BLOCK, t) == if t == 0 then 0x61626380 else if t == 15 then 0x18 else 0
  {
    var b := BLOCK[4 * t..4 * t + 4];
    assert b[0] == BLOCK[4 * t] && b[1] == BLOCK[4 * t + 1] && b[2] == BLOCK[4 * t + 2] && b[3] == BLOCK[4 * t + 3];
  }

  lemma Words1()
    ensures W(BLOCK, 16) == 0x61626380 && W(BLOCK, 17) == 0x000f0000 && W(BLOCK, 18) == 0x7da86405 &&
      W(BLOCK, 19) == 0x600003c6
    ensures W(BLOCK, 20) == 0x3e9d7b78 && W(BLOCK, 21) == 0x0183fc00 && W(BLOCK, 22) == 0x12dcbfdb &&
      W(BLOCK, 23) == 0xe2e2c38e
  {
    hide W;
    Words0();
    Word(16, 0x00000000, 0x00000000, 0x00000000, 0x61626380, 0x61626380);
    Word(17, 0x00000018, 0x00000000, 0x00000000, 0x00000000, 0x000f0000);
    Word(18, 0x61626380, 0x00000000, 0x00000000, 0x00000000, 0x7da86405);
    Word(19, 0x000f0000, 0x00000000, 0x00000000, 0x00000000, 0x600003c6);
    Word(20, 0x7da86405, 0x00000000, 0x00000000, 0x00000000, 0x3e9d7b78);
    Word(21, 0x600003c6, 0x00000000, 0x00000000, 0x00000000, 0x0183fc00);
    Word(22, 0x3e9d7b78, 0x00000018, 0x00000000, 0x00000000, 0x12dcbfdb);
    Word(23, 0x0183fc00, 0x61626380, 0x00000000, 0x00000000, 0xe2e2c38e);
  }

  lemma Words2()
    ensures W(BLOCK, 24) == 0xc8215c1a && W(BLOCK, 25) == 0xb73679a2 && W(BLOCK, 26) == 0xe5bc3909 &&
      W(BLOCK, 27) == 0x32663c5b
    ensures W(BLOCK, 28) == 0x9d209d67 && W(BLOCK, 29) == 0xec8726cb && W(BLOCK, 30) == 0x702138a4 &&
      W(BLOCK, 31) == 0xd3b7973b
  {
    hide W;
    Words0();
    Words1();
    Word(24, 0x12dcbfdb, 0x000f0000, 0x00000000, 0x00000000, 0xc8215c1a);
    Word(25, 0xe2e2c38e, 0x7da86405, 0x00000000, 0x00000000, 0xb73679a2);
    Word(26, 0xc8215c1a, 0x600003c6, 0x00000000, 0x00000000, 0xe5bc3909);
    Word(27, 0xb73679a2, 0x3e9d7b78, 0x00000000, 0x00000000, 0x32663c5b);
    Word(28, 0xe5bc3909, 0x0183fc00, 0x00000000, 0x00000000, 0x9d209d67);
    Word(29, 0x32663c5b, 0x12dcbfdb, 0x00000000, 0x00000000, 0xec8726cb);
    Word(30, 0x9d209d67, 0xe2e2c38e, 0x00000018, 0x00000000, 0x702138a4);
    Word(31, 0xec8726cb, 0xc8215c1a, 0x61626380, 0x00000018, 0xd3b7973b);
  }

  lemma Words3()
    ensures W(BLOCK, 32) == 0x93f5997f && W(BLOCK, 33) == 0x3b68ba73 && W(BLOCK, 34) == 0xaff4ffc1 &&
      W(BLOCK, 35) == 0xf10a5c62
    ensures W(BLOCK, 36) == 0x0a8b3996 && W(BLOCK, 37) == 0x72af830a && W(BLOCK, 38) == 0x9409e33e &&
      W(BLOCK, 39) == 0x24641522
  {
    hide W;
    Words1();
    Words2();
    Word(32, 0x702138a4, 0xb73679a2, 0x000f0000, 0x61626380, 0x93f5997f);
    Word(33, 0xd3b7973b, 0xe5bc3909, 0x7da86405, 0x000f0000, 0x3b68ba73);
    Word(34, 0x93f5997f, 0x32663c5b, 0x600003c6, 0x7da86405, 0xaff4ffc1);
    Word(35, 0x3b68ba73, 0x9d209d67, 0x3e9d7b78, 0x600003c6, 0xf10a5c62);
    Word(36, 0xaff4ffc1, 0xec8726cb, 0x0183fc00, 0x3e9d7b78, 0x0a8b3996);
    Word(37, 0xf10a5c62, 0x702138a4, 0x12dcbfdb, 0x0183fc00, 0x72af830a);
    Word(38, 0x0a8b3996, 0xd3b7973b, 0xe2e2c38e, 0x12dcbfdb, 0x9409e33e);
    Word(39, 0x72af830a, 0x93f5997f, 0xc8215c1a, 0xe2e2c38e, 0x24641522);
  }

  lemma Words4()
    ensures W(BLOCK, 40) == 0x9f47bf94 && W(BLOCK, 41) == 0xf0a64f5a && W(BLOCK, 42) == 0x3e246a79 &&
      W(BLOCK, 43) == 0x27333ba3
    ensures W(BLOCK, 44) == 0x0c4763f2 && W(BLOCK, 45) == 0x840abf27 && W(BLOCK, 46) == 0x7a290d5d &&
      W(BLOCK, 47) == 0x065c43da
  {
    hide W;
    Words2();
    Words3();
    Word(40, 0x9409e33e, 0x3b68ba73, 0xb73679a2, 0xc8215c1a, 0x9f47bf94);
    Word(41, 0x24641522, 0xaff4ffc1, 0xe5bc3909, 0xb73679a2, 0xf0a64f5a);
    Word(42, 0x9f47bf94, 0xf10a5c62, 0x32663c5b, 0xe5bc3909, 0x3e246a79);
    Word(43, 0xf0a64f5a, 0x0a8b3996, 0x9d209d67, 0x32663c5b, 0x27333ba3);
    Word(44, 0x3e246a79, 0x72af830a, 0xec8726cb, 0x9d209d67, 0x0c4763f2);
    Word(45, 0x27333ba3, 0x9409e33e, 0x702138a4, 0xec8726cb, 0x840abf27);
    Word(46, 0x0c4763f2, 0x24641522, 0xd3b7973b, 0x702138a4, 0x7a290d5d);
    Word(47, 0x840abf27, 0x9f47bf94, 0x93f5997f, 0xd3b7973b, 0x065c43da);
  }

  lemma Words5()
    ensures W(BLOCK, 48) == 0xfb3e89cb && W(BLOCK, 49) == 0xcc7617db && W(BLOCK, 50) == 0xb9e66c34 &&
      W(BLOCK, 51) == 0xa9993667
    ensures W(BLOCK, 52) == 0x84badedd && W(BLOCK, 53) == 0xc21462bc && W(BLOCK, 54) == 0x1487472c &&
      W(BLOCK, 55) == 0xb20f7a99
  {
    hide W;
    Words3();
    Words4();
    Word(48, 0x7a290d5d, 0xf0a64f5a, 0x3b68ba73, 0x93f5997f, 0xfb3e89cb);
    Word(49, 0x065c43da, 0x3e246a79, 0xaff4ffc1, 0x3b68ba73, 0xcc7617db);
    Word(50, 0xfb3e89cb, 0x27333ba3, 0xf10a5c62, 0xaff4ffc1, 0xb9e66c34);
    Word(51, 0xcc7617db, 0x0c4763f2, 0x0a8b3996, 0xf10a5c62, 0xa9993667);
    Word(52, 0xb9e66c34, 0x840abf27, 0x72af830a, 0x0a8b3996, 0x84badedd);
    Word(53, 0xa9993667, 0x7a290d5d, 0x9409e33e, 0x72af830a, 0xc21462bc);
    Word(54, 0x84badedd, 0x065c43da, 0x24641522, 0x9409e33e, 0x1487472c);
    Word(55, 0xc21462bc, 0xfb3e89cb, 0x9f47bf94, 0x24641522, 0xb20f7a99);
  }

  lemma Words6()
    ensures W(BLOCK, 56) == 0xef57b9cd && W(BLOCK, 57) == 0xebe6b238 && W(BLOCK, 58) == 0x9fe3095e &&
      W(BLOCK, 59) == 0x78bc8d4b
    ensures W(BLOCK, 60) == 0xa43fcf15 && W(BLOCK, 61) == 0x668b2ff8 && W(BLOCK, 62) == 0xeeaba2cc &&
      W(BLOCK, 63) == 0x12b1edeb
  {
    hide W;
    Words4();
    Words5();
    Word(56, 0x1487472c, 0xcc7617db, 0xf0a64f5a, 0x9f47bf94, 0xef57b9cd);
    Word(57, 0xb20f7a99, 0xb9e66c34, 0x3e246a79, 0xf0a64f5a, 0xebe6b238);
    Word(58, 0xef57b9cd, 0xa9993667, 0x27333ba3, 0x3e246a79, 0x9fe3095e);
    Word(59, 0xebe6b238, 0x84badedd, 0x0c4763f2, 0x27333ba3, 0x78bc8d4b);
    Word(60, 0x9fe3095e, 0xc21462bc, 0x840abf27, 0x0c4763f2, 0xa43fcf15);
    Word(61, 0x78bc8d4b, 0x1487472c, 0x7a290d5d, 0x840abf27, 0x668b2ff8);
    Word(62, 0xa43fcf15, 0xb20f7a99, 0x065c43da, 0x7a290d5d, 0xeeaba2cc);
    Word(63, 0x668b2ff8, 0xef57b9cd, 0xfb3e89cb, 0x065c43da, 0x12b1edeb);
  }

  // ----- the rounds

  /** The registers after t rounds. */
  function At(t: nat): Registers
    requires t <= 64
  {
    Rounds(ToRegisters(INITIAL_HASH), BLOCK, t)
  }

  /** One round sets a and e and moves the others. */
  lemma Step(t: nat, k: Word, w: Word, a: Word, e: Word)
    requires t < 64 && K[t] == k && W(BLOCK, t) == w
    requires var r := Round(At(t), k, w); r.a == a && r.e == e
    ensures var r := At(t); At(t + 1) == Registers(a, r.a, r.b, r.c, e, r.e, r.f, r.g)
  {
  }

  lemma NoRounds()
    ensures At(0) == Registers(0x6a09e667, 0xbb67ae85, 0x3c6ef372, 0xa54ff53a,
                            0x510e527f, 0x9b05688c, 0x1f83d9ab, 0x5be0cd19)
  {
  }

  lemma Rounds8()
    ensures At(8) == Registers(0x85a07b5f, 0xe5030380, 0x2b4209f5, 0x04409a6a,
                           0x0c657a79, 0x9b27a401, 0x714260ad, 0x43ada245)
  {
    hide W, Rounds, At, K;
    NoRounds();
    Words0();
    Constants0();
    Step(0, 0x428a2f98, 0x61626380, 0x5d6aebcd, 0xfa2a4622);
    Step(1, 0x71374491, 0x00000000, 0x5a6ad9ad, 0x78ce7989);
    Step(2, 0xb5c0fbcf, 0x00000000, 0xc8c347a7, 0xf92939eb);
    Step(3, 0xe9b5dba5, 0x00000000, 0xd550f666, 0x24e00850);
    Step(4, 0x3956c25b, 0x00000000, 0x04409a6a, 0x43ada245);
    Step(5, 0x59f111f1, 0x00000000, 0x2b4209f5, 0x714260ad);
    Step(6, 0x923f82a4, 0x00000000, 0xe5030380, 0x9b27a401);
    Step(7, 0xab1c5ed5, 0x00000000, 0x85a07b5f, 0x0c657a79);
  }

  lemma Constants0()
    ensures K[0] == 0x428a2f98 && K[1] == 0x71374491 && K[2] == 0xb5c0fbcf && K[3] == 0xe9b5dba5 &&
      K[4] == 0x3956c25b && K[5] == 0x59f111f1 && K[6] == 0x923f82a4 && K[7] == 0xab1c5ed5
  {
  }

  lemma Rounds16()
    ensures At(16) == Registers(0xb0fa238e, 0xc0645fde, 0xd932eb16, 0x87912990,
                            0x07590dcd, 0x0b92f20c, 0x745a48de, 0x1e578218)
  {
    hide W, Rounds, At, K;
    Rounds8();
    Words0();
    Constants8();
    Step(8, 0xd807aa98, 0x00000000, 0x8e04ecb9, 0x32ca2d8c);
    Step(9, 0x12835b01, 0x00000000, 0x8c87346b, 0x1cc92596);
    Step(10, 0x243185be, 0x00000000, 0x4798a3f4, 0x436b23e8);
    Step(11, 0x550c7dc3, 0x00000000, 0xf71fc5a9, 0x816fd6e9);
    Step(12, 0x72be5d74, 0x00000000, 0x87912990, 0x1e578218);
    Step(13, 0x80deb1fe, 0x00000000, 0xd932eb16, 0x745a48de);
    Step(14, 0x9bdc06a7, 0x00000000, 0xc0645fde, 0x0b92f20c);
    Step(15, 0xc19bf174, 0x00000018, 0xb0fa238e, 0x07590dcd);
  }

  lemma Constants8()
    ensures K[8] == 0xd807aa98 && K[9] == 0x12835b01 && K[10] == 0x243185be && K[11] == 0x550c7dc3 &&
      K[12] == 0x72be5d74 && K[13] == 0x80deb1fe && K[14] == 0x9bdc06a7 && K[15] == 0xc19bf174
  {
  }

  lemma Rounds24()
    ensures At(24) == Registers(0xc5d53d8d, 0xa7a3623f, 0xc2606d6d, 0x9dc68b63,
                            0xaa47c347, 0x49f5114a, 0xe1257970, 0x8ada8930)
  {
    hide W, Rounds, At, K;
    Rounds16();
    Words1();
    Constants16();
    Step(16, 0xe49b69c1, 0x61626380, 0x21da9a9b, 0x8034229c);
    Step(17, 0xefbe4786, 0x000f0000, 0xc2fbd9d1, 0x846ee454);
    Step(18, 0x0fc19dc6, 0x7da86405, 0xfe777bbf, 0xcc899961);
    Step(19, 0x240ca1cc, 0x600003c6, 0xe1f20c33, 0xb0638179);
    Step(20, 0x2de92c6f, 0x3e9d7b78, 0x9dc68b63, 0x8ada8930);
    Step(21, 0x4a7484aa, 0x0183fc00, 0xc2606d6d, 0xe1257970);
    Step(22, 0x5cb0a9dc, 0x12dcbfdb, 0xa7a3623f, 0x49f5114a);
    Step(23, 0x76f988da, 0xe2e2c38e, 0xc5d53d8d, 0xaa47c347);
  }

  lemma Constants16()
    ensures K[16] == 0xe49b69c1 && K[17] == 0xefbe4786 && K[18] == 0x0fc19dc6 && K[19] == 0x240ca1cc &&
      K[20] == 0x2de92c6f && K[21] == 0x4a7484aa && K[22] == 0x5cb0a9dc && K[23] == 0x76f988da
  {
  }

  lemma Rounds32()
    ensures At(32) == Registers(0x73b33bf5, 0xea992a22, 0xa0060b30, 0x363482c9,
                            0xba591112, 0x0109ab3a, 0xade79437, 0x6112a3b7)
  {
    hide W, Rounds, At, K;
    Rounds24();
    Words2();
    Constants24();
    Step(24, 0x983e5152, 0xc8215c1a, 0x1c2c2838, 0x2823ef91);
    Step(25, 0xa831c66d, 0xb73679a2, 0xcde8037d, 0x14383d8e);
    Step(26, 0xb00327c8, 0xe5bc3909, 0xb62ec4bc, 0xc74c6516);
    Step(27, 0xbf597fc7, 0x32663c5b, 0x77d37528, 0xedffbff8);
    Step(28, 0xc6e00bf3, 0x9d209d67, 0x363482c9, 0x6112a3b7);
    Step(29, 0xd5a79147, 0xec8726cb, 0xa0060b30, 0xade79437);
    Step(30, 0x06ca6351, 0x702138a4, 0xea992a22, 0x0109ab3a);
    Step(31, 0x14292967, 0xd3b7973b, 0x73b33bf5, 0xba591112);
  }

  lemma Constants24()
    ensures K[24] == 0x983e5152 && K[25] == 0xa831c66d && K[26] == 0xb00327c8 && K[27] == 0xbf597fc7 &&
      K[28] == 0xc6e00bf3 && K[29] == 0xd5a79147 && K[30] == 0x06ca6351 && K[31] == 0x14292967
  {
  }

  lemma Rounds40()
    ensures At(40) == Registers(0x79ea687a, 0x6dc57a8a, 0x34df1604, 0x41a65cb1,
                            0x1efbc0a0, 0xf0781bc8, 0xa507a53d, 0x0772a26b)
  {
    hide W, Rounds, At, K;
    Rounds32();
    Words3();
    Constants32();
    Step(32, 0x27b70a85, 0x93f5997f, 0x98e12507, 0x9cd9f5f6);
    Step(33, 0x2e1b2138, 0x3b68ba73, 0xfe604df5, 0x59249dd3);
    Step(34, 0x4d2c6dfc, 0xaff4ffc1, 0xa9a7738c, 0x085f3833);
    Step(35, 0x53380d13, 0xf10a5c62, 0x65a0cfe4, 0xf4b002d6);
    Step(36, 0x650a7354, 0x0a8b3996, 0x41a65cb1, 0x0772a26b);
    Step(37, 0x766a0abb, 0x72af830a, 0x34df1604, 0xa507a53d);
    Step(38, 0x81c2c92e, 0x9409e33e, 0x6dc57a8a, 0xf0781bc8);
    Step(39, 0x92722c85, 0x24641522, 0x79ea687a, 0x1efbc0a0);
  }

  lemma Constants32()
    ensures K[32] == 0x27b70a85 && K[33] == 0x2e1b2138 && K[34] == 0x4d2c6dfc && K[35] == 0x53380d13 &&
      K[36] == 0x650a7354 && K[37] == 0x766a0abb && K[38] == 0x81c2c92e && K[39] == 0x92722c85
  {
  }

  lemma Rounds48()
    ensures At(48) == Registers(0x4172328d, 0xa14c14b0, 0x72ab4b91, 0x26628815,
                            0xfecf0bc6, 0xd57b94a9, 0xb7755da1, 0xa80f11f0)
  {
    hide W, Rounds, At, K;
    Rounds40();
    Words4();
    Constants40();
    Step(40, 0xa2bfe8a1, 0x9f47bf94, 0xd6670766, 0x26352d63);
    Step(41, 0xa81a664b, 0xf0a64f5a, 0xdf46652f, 0x838b2711);
    Step(42, 0xc24b8b70, 0x3e246a79, 0x17aa0dfe, 0xdecd4715);
    Step(43, 0xc76c51a3, 0x27333ba3, 0x9d4baf93, 0xfda24c2e);
    Step(44, 0xd192e819, 0x0c4763f2, 0x26628815, 0xa80f11f0);
    Step(45, 0xd6990624, 0x840abf27, 0x72ab4b91, 0xb7755da1);
    Step(46, 0xf40e3585, 0x7a290d5d, 0xa14c14b0, 0xd57b94a9);
    Step(47, 0x106aa070, 0x065c43da, 0x4172328d, 0xfecf0bc6);
  }

  lemma Constants40()
    ensures K[40] == 0xa2bfe8a1 && K[41] == 0xa81a664b && K[42] == 0xc24b8b70 && K[43] == 0xc76c51a3 &&
      K[44] == 0xd192e819 && K[45] == 0xd6990624 && K[46] == 0xf40e3585 && K[47] == 0x106aa070
  {
  }

  lemma Rounds56()
    ensures At(56) == Registers(0x38cc9913, 0x3ec45cdb, 0xf5702fdb, 0x101fd28f,
                            0x54cb266b, 0xe50e1b4f, 0x9f4787c3, 0x529e7d00)
  {
    hide W, Rounds, At, K;
    Rounds48();
    Words5();
    Constants48();
    Step(48, 0x19a4c116, 0xfb3e89cb, 0x05757ceb, 0xbd714038);
    Step(49, 0x1e376c08, 0xcc7617db, 0xf11bfaa8, 0x6e5c390c);
    Step(50, 0x2748774c, 0xb9e66c34, 0x7a0508a1, 0x52f1ccf7);
    Step(51, 0x34b0bcb5, 0xa9993667, 0x886e7a22, 0x49231c1e);
    Step(52, 0x391c0cb3, 0x84badedd, 0x101fd28f, 0x529e7d00);
    Step(53, 0x4ed8aa4a, 0xc21462bc, 0xf5702fdb, 0x9f4787c3);
    Step(54, 0x5b9cca4f, 0x1487472c, 0x3ec45cdb, 0xe50e1b4f);
    Step(55, 0x682e6ff3, 0xb20f7a99, 0x38cc9913, 0x54cb266b);
  }

  lemma Constants48()
    ensures K[48] == 0x19a4c116 && K[49] == 0x1e376c08 && K[50] == 0x2748774c && K[51] == 0x34b0bcb5 &&
      K[52] == 0x391c0cb3 && K[53] == 0x4ed8aa4a && K[54] == 0x5b9cca4f && K[55] == 0x682e6ff3
  {
  }

  lemma Rounds64()
    ensures At(64) == Registers(0x506e3058, 0xd39a2165, 0x04d24d6c, 0xb85e2ce9,
                            0x5ef50f24, 0xfb121210, 0x948d25b6, 0x961f4894)
  {
    hide W, Rounds, At, K;
    Rounds56();
    Words6();
    Constants56();
    Step(56, 0x748f82ee, 0xef57b9cd, 0xfcd1887b, 0x9b5e906c);
    Step(57, 0x78a5636f, 0xebe6b238, 0xc062d46f, 0x7e44008e);
    Step(58, 0x84c87814, 0x9fe3095e, 0xffb70472, 0x6d83bfc6);
    Step(59, 0x8cc70208, 0x78bc8d4b, 0xb6ae8fff, 0xb21bad3d);
    Step(60, 0x90befffa, 0xa43fcf15, 0xb85e2ce9, 0x961f4894);
    Step(61, 0xa4506ceb, 0x668b2ff8, 0x04d24d6c, 0x948d25b6);
    Step(62, 0xbef9a3f7, 0xeeaba2cc, 0xd39a2165, 0xfb121210);
    Step(63, 0xc67178f2, 0x12b1edeb, 0x506e3058, 0x5ef50f24);
  }

  lemma Constants56()
    ensures K[56] == 0x748f82ee && K[57] == 0x78a5636f && K[58] == 0x84c87814 && K[59] == 0x8cc70208 &&
      K[60] == 0x90befffa && K[61] == 0xa4506ceb && K[62] == 0xbef9a3f7 && K[63] == 0xc67178f2
  {
  }

  // ----- the digest

  const DIGEST: seq<Byte> :=
    [0xba, 0x78, 0x16, 0xbf] +
    [0x8f, 0x01, 0xcf, 0xea] +
    [0x41, 0x41, 0x40, 0xde] +
    [0x5d, 0xae, 0x22, 0x23] +
    [0xb0, 0x03, 0x61, 0xa3] +
    [0x96, 0x17, 0x7a, 0x9c] +
    [0xb4, 0x10, 0xff, 0x61] +
    [0xf2, 0x00, 0x15, 0xad]

  const DIGEST_TEXT :=
    "ba7816bf" +
    "8f01cfea" +
    "414140de" +
    "5dae2223" +
    "b00361a3" +
    "96177a9c" +
    "b410ff61" +
    "f20015ad"

  lemma AbcCompressed()
    ensures Compress(INITIAL_HASH, BLOCK) == [
      0xba7816bf, 0x8f01cfea, 0x414140de, 0x5dae2223, 0xb00361a3, 0x96177a9c, 0xb410ff61, 0xf20015ad]
  {
    hide Rounds;
    Rounds64();
  }

  lemma AbcHashed()
    ensures Hash(ABC) == [
      0xba7816bf, 0x8f01cfea, 0x414140de, 0x5dae2223, 0xb00361a3, 0x96177a9c, 0xb410ff61, 0xf20015ad]
  {
    Padded();
    hide Compress, Pad;
    assert |BLOCK| == 64;
    assert BLOCK[0..64] == BLOCK;
    assert HashBlocks(INITIAL_HASH, BLOCK, 0) == INITIAL_HASH;
    AbcCompressed();
  }

  /** Four bytes are told by their word. */
  lemma FourBytes(four: seq<Byte>, row: seq<Byte>)
    requires |four| == |row| == 4 && ToWord(four) == ToWord(row)
    ensures four == row
  {
    BytesDetermine(four[0], four[1], four[2], four[3], row[0], row[1], row[2], row[3]);
  }

  lemma DigestRow(d: seq<Byte>, i: nat, row: seq<Byte>)
    requires IsDigest(ABC, d) && i < 8 && |row| == 4 && ToWord(row) == Hash(ABC)[i]
    ensures d[4 * i..4 * i + 4] == row
  {
    hide ToWord, Hash;
    FourBytes(d[4 * i..4 * i + 4], row);
  }

  lemma WordsOfDigest()
    ensures ToWord([0xba, 0x78, 0x16, 0xbf]) == 0xba7816bf
    ensures ToWord([0x8f, 0x01, 0xcf, 0xea]) == 0x8f01cfea
    ensures ToWord([0x41, 0x41, 0x40, 0xde]) == 0x414140de
    ensures ToWord([0x5d, 0xae, 0x22, 0x23]) == 0x5dae2223
    ensures ToWord([0xb0, 0x03, 0x61, 0xa3]) == 0xb00361a3
    ensures ToWord([0x96, 0x17, 0x7a, 0x9c]) == 0x96177a9c
    ensures ToWord([0xb4, 0x10, 0xff, 0x61]) == 0xb410ff61
    ensures ToWord([0xf2, 0x00, 0x15, 0xad]) == 0xf20015ad
  {
  }

  lemma Assembled(d: seq<Byte>)
    requires |d| == 32
    ensures d == d[0..4] + d[4..8] + d[8..12] + d[12..16] + d[16..20] + d[20..24] + d[24..28] + d[28..32]
  {
  }

  /** The only digest of "abc". */
  lemma AbcDigest(d: seq<Byte>)
    requires IsDigest(ABC, d)
    ensures d == DIGEST
  {
    hide ToWord, Hash;
    AbcHashed();
    WordsOfDigest();
    DigestRow(d, 0, [0xba, 0x78, 0x16, 0xbf]);
    DigestRow(d, 1, [0x8f, 0x01, 0xcf, 0xea]);
    DigestRow(d, 2, [0x41, 0x41, 0x40, 0xde]);
    DigestRow(d, 3, [0x5d, 0xae, 0x22, 0x23]);
    DigestRow(d, 4, [0xb0, 0x03, 0x61, 0xa3]);
    DigestRow(d, 5, [0x96, 0x17, 0x7a, 0x9c]);
    DigestRow(d, 6, [0xb4, 0x10, 0xff, 0x61]);
    DigestRow(d, 7, [0xf2, 0x00, 0x15, 0xad]);
    Assembled(d);
  }

  /** Four bytes and their text. */
  lemma FourShow(s: string, a: seq<Byte>, t: string, b: seq<Byte>)
    requires Shows(s, a) && Shows(t, b)
    ensures Shows(s + t, a + b)
  {
    hide HexValue;
    var text, bytes := s + t, a + b;
    forall i | 0 <= i < |bytes|
      ensures HexValue(text[2 * i]) * 16 + HexValue(text[2 * i + 1]) == bytes[i] as int
    {
      if i < |a| {
        assert text[2 * i] == s[2 * i] && text[2 * i + 1] == s[2 * i + 1];
      } else {
        var k := i - |a|;
        assert text[2 * i] == t[2 * k] && text[2 * i + 1] == t[2 * k + 1];
      }
    }
  }

  lemma RowShows0()
    ensures Shows("ba7816bf", [0xba, 0x78, 0x16, 0xbf])
    ensures Shows("8f01cfea", [0x8f, 0x01, 0xcf, 0xea])
  {
  }

  lemma RowShows2()
    ensures Shows("414140de", [0x41, 0x41, 0x40, 0xde])
    ensures Shows("5dae2223", [0x5d, 0xae, 0x22, 0x23])
  {
  }

  lemma RowShows4()
    ensures Shows("b00361a3", [0xb0, 0x03, 0x61, 0xa3])
    ensures Shows("96177a9c", [0x96, 0x17, 0x7a, 0x9c])
  {
  }

  lemma RowShows6()
    ensures Shows("b410ff61", [0xb4, 0x10, 0xff, 0x61])
    ensures Shows("f20015ad", [0xf2, 0x00, 0x15, 0xad])
  {
  }

  lemma TextShowsDigest()
    ensures Shows(DIGEST_TEXT, DIGEST)
  {
    hide Shows;
    RowShows0();
    RowShows2();
    RowShows4();
    RowShows6();
    FourShow("ba7816bf",
             [0xba, 0x78, 0x16, 0xbf],
             "8f01cfea", [0x8f, 0x01, 0xcf, 0xea]);
    FourShow("ba7816bf" + "8f01cfea",
             [0xba, 0x78, 0x16, 0xbf] + [0x8f, 0x01, 0xcf, 0xea],
             "414140de", [0x41, 0x41, 0x40, 0xde]);
    FourShow("ba7816bf" + "8f01cfea" + "414140de",
             [0xba, 0x78, 0x16, 0xbf] + [0x8f, 0x01, 0xcf, 0xea] + [0x41, 0x41, 0x40, 0xde],
             "5dae2223", [0x5d, 0xae, 0x22, 0x23]);
    FourShow("ba7816bf" + "8f01cfea" + "414140de" + "5dae2223",
             [0xba, 0x78, 0x16, 0xbf] + [0x8f, 0x01, 0xcf, 0xea] + [0x41, 0x41, 0x40, 0xde] + [0x5d, 0xae, 0x22, 0x23],
             "b00361a3", [0xb0, 0x03, 0x61, 0xa3]);
    FourShow("ba7816bf" + "8f01cfea" + "414140de" + "5dae2223" + "b00361a3",
             [0xba, 0x78, 0x16, 0xbf] + [0x8f, 0x01, 0xcf, 0xea] + [0x41, 0x41, 0x40, 0xde] + [0x5d, 0xae, 0x22, 0x23] +
               [0xb0, 0x03, 0x61, 0xa3],
             "96177a9c", [0x96, 0x17, 0x7a, 0x9c]);
    FourShow("ba7816bf" + "8f01cfea" + "414140de" + "5dae2223" + "b00361a3" + "96177a9c",
             [0xba, 0x78, 0x16, 0xbf] + [0x8f, 0x01, 0xcf, 0xea] + [0x41, 0x41, 0x40, 0xde] + [0x5d, 0xae, 0x22, 0x23] +
               [0xb0, 0x03, 0x61, 0xa3] + [0x96, 0x17, 0x7a, 0x9c],
             "b410ff61", [0xb4, 0x10, 0xff, 0x61]);
    FourShow("ba7816bf" + "8f01cfea" + "414140de" + "5dae2223" + "b00361a3" + "96177a9c" + "b410ff61",
             [0xba, 0x78, 0x16, 0xbf] + [0x8f, 0x01, 0xcf, 0xea] + [0x41, 0x41, 0x40, 0xde] + [0x5d, 0xae, 0x22, 0x23] +
               [0xb0, 0x03, 0x61, 0xa3] + [0x96, 0x17, 0x7a, 0x9c] + [0xb4, 0x10, 0xff, 0x61],
             "f20015ad", [0xf2, 0x00, 0x15, 0xad]);
  }

  /** Two texts that show the same bytes are the same. */
  lemma ShowsDetermines(s: string, t: string, bytes: seq<Byte>)
    requires Shows(s, bytes) && Shows(t, bytes)
    ensures s == t
  {
    forall i | 0 <= i < |bytes|
      ensures s[2 * i] == t[2 * i] && s[2 * i + 1] == t[2 * i + 1]
    {
      SameCharacters(s[2 * i], s[2 * i + 1], t[2 * i], t[2 * i + 1]);
    }
    forall k | 0 <= k < |s| ensures s[k] == t[k] {
      var i := k / 2;
      assert s[2 * i] == t[2 * i] && s[2 * i + 1] == t[2 * i + 1];
    }
  }

  predicate IsHex(c: char) {
    '0' <= c <= '9' || 'a' <= c <= 'f'
  }

  lemma SameCharacters(a: char, b: char, c: char, d: char)
    requires IsHex(a) && IsHex(b) && IsHex(c) && IsHex(d)
    requires HexValue(a) * 16 + HexValue(b) == HexValue(c) * 16 + HexValue(d)
    ensures a == c && b == d
  {
  }

  /** What `sha256_hex` returns for "abc". */
  lemma AbcText(digest: seq<Byte>, text: string)
    requires IsDigest(ABC, digest) && Shows(text, digest)
    ensures text == DIGEST_TEXT
  {
    hide IsDigest, Shows;
    AbcDigest(digest);
    TextShowsDigest();
    ShowsDetermines(text, DIGEST_TEXT, digest);
  }
}
