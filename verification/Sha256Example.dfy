/** The one-block example published with FIPS 180-4: the message "abc", word by word of
    its schedule and round by round. It fixes every choice of the definitions at once: byte
    order, rotation distances, wiring of the rounds, constants and output order. */
module Sha256Example {
  import opened Basics
  import opened Sha256Spec

  const ABC: seq<byte> := [97, 98, 99]

  /** The padded message. */
  const BLOCK: Block := ABC + [0x80] + Zeros(59) + [24]

  lemma PaddedIsBlock()
    ensures Pad(ABC) == BLOCK
  {
    assert BigEndian(24, 8) == Zeros(7) + [24] by {
      assert BigEndian(0, 7) == Zeros(7);
    }
    hide BigEndian;
    assert Zeros(59) == Zeros(52) + Zeros(7);
  }

  predicate IsWord(t: nat, w: word)
    requires t < 64
  {
    Schedule(BLOCK, t) == w
  }

  predicate IsState(t: nat, v: Hash)
    requires t <= 64
  {
    Rounds(H0, BLOCK, t) == v
  }

  /** The recurrence of the schedule, on known words. */
  lemma NextWord(t: nat, w2: word, w7: word, w15: word, w16: word, w: word)
    requires 16 <= t < 64
    requires IsWord(t - 2, w2) && IsWord(t - 7, w7) && IsWord(t - 15, w15) && IsWord(t - 16, w16)
    requires w == Plus(Plus(Plus(SmallSigma1(w2), w7), SmallSigma0(w15)), w16)
    ensures IsWord(t, w)
  {
    hide Plus, SmallSigma0, SmallSigma1;
  }

  /** One round, on known variables: only `a` and `e` are new. */
  lemma Next(t: nat, v: Hash, w: word, a: word, e: word) returns (n: Hash)
    requires t < 64 && IsState(t, v) && IsWord(t, w)
    requires var r := Round(v, K(t), w); r.a == a && r.e == e
    ensures n == Hash(a, v.a, v.b, v.c, e, v.e, v.f, v.g) && IsState(t + 1, n)
  {
    hide K, Schedule, Plus, BigSigma0, BigSigma1, Ch, Maj;
    n := Round(v, K(t), w);
  }

  lemma Start()
    ensures IsState(0, H0)
  {
    hide Round, Schedule;
  }

  lemma Words0()
    ensures IsWord(0, 0x61626380) && IsWord(15, 0x00000018)
    ensures forall t | 1 <= t < 15 :: IsWord(t, 0)
  {
    assert Join(97, 98, 99, 0x80) == 0x61626380 && Join(0, 0, 0, 24) == 24 && Join(0, 0, 0, 0) == 0;
    hide Join;
    forall t | 1 <= t < 15
      ensures IsWord(t, 0)
    {
      assert BlockWord(BLOCK, t) == Join(0, 0, 0, 0);
    }
  }

  lemma Words2()
    ensures IsWord(16, 0x61626380) && IsWord(17, 0x000f0000) && IsWord(18, 0x7da86405) && IsWord(19, 0x600003c6)
    ensures IsWord(20, 0x3e9d7b78) && IsWord(21, 0x0183fc00) && IsWord(22, 0x12dcbfdb) && IsWord(23, 0xe2e2c38e)
  {
    hide IsWord;
    Words0();
    NextWord(16, 0x00000000, 0x00000000, 0x00000000, 0x61626380, 0x61626380);
    NextWord(17, 0x00000018, 0x00000000, 0x00000000, 0x00000000, 0x000f0000);
    NextWord(18, 0x61626380, 0x00000000, 0x00000000, 0x00000000, 0x7da86405);
    NextWord(19, 0x000f0000, 0x00000000, 0x00000000, 0x00000000, 0x600003c6);
    NextWord(20, 0x7da86405, 0x00000000, 0x00000000, 0x00000000, 0x3e9d7b78);
    NextWord(21, 0x600003c6, 0x00000000, 0x00000000, 0x00000000, 0x0183fc00);
    NextWord(22, 0x3e9d7b78, 0x00000018, 0x00000000, 0x00000000, 0x12dcbfdb);
    NextWord(23, 0x0183fc00, 0x61626380, 0x00000000, 0x00000000, 0xe2e2c38e);
  }

  lemma Words3()
    ensures IsWord(24, 0xc8215c1a) && IsWord(25, 0xb73679a2) && IsWord(26, 0xe5bc3909) && IsWord(27, 0x32663c5b)
    ensures IsWord(28, 0x9d209d67) && IsWord(29, 0xec8726cb) && IsWord(30, 0x702138a4) && IsWord(31, 0xd3b7973b)
  {
    hide IsWord;
    Words0();
    Words2();
    NextWord(24, 0x12dcbfdb, 0x000f0000, 0x00000000, 0x00000000, 0xc8215c1a);
    NextWord(25, 0xe2e2c38e, 0x7da86405, 0x00000000, 0x00000000, 0xb73679a2);
    NextWord(26, 0xc8215c1a, 0x600003c6, 0x00000000, 0x00000000, 0xe5bc3909);
    NextWord(27, 0xb73679a2, 0x3e9d7b78, 0x00000000, 0x00000000, 0x32663c5b);
    NextWord(28, 0xe5bc3909, 0x0183fc00, 0x00000000, 0x00000000, 0x9d209d67);
    NextWord(29, 0x32663c5b, 0x12dcbfdb, 0x00000000, 0x00000000, 0xec8726cb);
    NextWord(30, 0x9d209d67, 0xe2e2c38e, 0x00000018, 0x00000000, 0x702138a4);
    NextWord(31, 0xec8726cb, 0xc8215c1a, 0x61626380, 0x00000018, 0xd3b7973b);
  }

  lemma Words4()
    ensures IsWord(32, 0x93f5997f) && IsWord(33, 0x3b68ba73) && IsWord(34, 0xaff4ffc1) && IsWord(35, 0xf10a5c62)
    ensures IsWord(36, 0x0a8b3996) && IsWord(37, 0x72af830a) && IsWord(38, 0x9409e33e) && IsWord(39, 0x24641522)
  {
    hide IsWord;
    Words0();
    Words2();
    Words3();
    NextWord(32, 0x702138a4, 0xb73679a2, 0x000f0000, 0x61626380, 0x93f5997f);
    NextWord(33, 0xd3b7973b, 0xe5bc3909, 0x7da86405, 0x000f0000, 0x3b68ba73);
    NextWord(34, 0x93f5997f, 0x32663c5b, 0x600003c6, 0x7da86405, 0xaff4ffc1);
    NextWord(35, 0x3b68ba73, 0x9d209d67, 0x3e9d7b78, 0x600003c6, 0xf10a5c62);
    NextWord(36, 0xaff4ffc1, 0xec8726cb, 0x0183fc00, 0x3e9d7b78, 0x0a8b3996);
    NextWord(37, 0xf10a5c62, 0x702138a4, 0x12dcbfdb, 0x0183fc00, 0x72af830a);
    NextWord(38, 0x0a8b3996, 0xd3b7973b, 0xe2e2c38e, 0x12dcbfdb, 0x9409e33e);
    NextWord(39, 0x72af830a, 0x93f5997f, 0xc8215c1a, 0xe2e2c38e, 0x24641522);
  }

  lemma Words5()
    ensures IsWord(40, 0x9f47bf94) && IsWord(41, 0xf0a64f5a) && IsWord(42, 0x3e246a79) && IsWord(43, 0x27333ba3)
    ensures IsWord(44, 0x0c4763f2) && IsWord(45, 0x840abf27) && IsWord(46, 0x7a290d5d) && IsWord(47, 0x065c43da)
  {
    hide IsWord;
    Words0();
    Words2();
    Words3();
    Words4();
    NextWord(40, 0x9409e33e, 0x3b68ba73, 0xb73679a2, 0xc8215c1a, 0x9f47bf94);
    NextWord(41, 0x24641522, 0xaff4ffc1, 0xe5bc3909, 0xb73679a2, 0xf0a64f5a);
    NextWord(42, 0x9f47bf94, 0xf10a5c62, 0x32663c5b, 0xe5bc3909, 0x3e246a79);
    NextWord(43, 0xf0a64f5a, 0x0a8b3996, 0x9d209d67, 0x32663c5b, 0x27333ba3);
    NextWord(44, 0x3e246a79, 0x72af830a, 0xec8726cb, 0x9d209d67, 0x0c4763f2);
    NextWord(45, 0x27333ba3, 0x9409e33e, 0x702138a4, 0xec8726cb, 0x840abf27);
    NextWord(46, 0x0c4763f2, 0x24641522, 0xd3b7973b, 0x702138a4, 0x7a290d5d);
    NextWord(47, 0x840abf27, 0x9f47bf94, 0x93f5997f, 0xd3b7973b, 0x065c43da);
  }

  lemma Words6()
    ensures IsWord(48, 0xfb3e89cb) && IsWord(49, 0xcc7617db) && IsWord(50, 0xb9e66c34) && IsWord(51, 0xa9993667)
    ensures IsWord(52, 0x84badedd) && IsWord(53, 0xc21462bc) && IsWord(54, 0x1487472c) && IsWord(55, 0xb20f7a99)
  {
    hide IsWord;
    Words0();
    Words2();
    Words3();
    Words4();
    Words5();
    NextWord(48, 0x7a290d5d, 0xf0a64f5a, 0x3b68ba73, 0x93f5997f, 0xfb3e89cb);
    NextWord(49, 0x065c43da, 0x3e246a79, 0xaff4ffc1, 0x3b68ba73, 0xcc7617db);
    NextWord(50, 0xfb3e89cb, 0x27333ba3, 0xf10a5c62, 0xaff4ffc1, 0xb9e66c34);
    NextWord(51, 0xcc7617db, 0x0c4763f2, 0x0a8b3996, 0xf10a5c62, 0xa9993667);
    NextWord(52, 0xb9e66c34, 0x840abf27, 0x72af830a, 0x0a8b3996, 0x84badedd);
    NextWord(53, 0xa9993667, 0x7a290d5d, 0x9409e33e, 0x72af830a, 0xc21462bc);
    NextWord(54, 0x84badedd, 0x065c43da, 0x24641522, 0x9409e33e, 0x1487472c);
    NextWord(55, 0xc21462bc, 0xfb3e89cb, 0x9f47bf94, 0x24641522, 0xb20f7a99);
  }

  lemma Words7()
    ensures IsWord(56, 0xef57b9cd) && IsWord(57, 0xebe6b238) && IsWord(58, 0x9fe3095e) && IsWord(59, 0x78bc8d4b)
    ensures IsWord(60, 0xa43fcf15) && IsWord(61, 0x668b2ff8) && IsWord(62, 0xeeaba2cc) && IsWord(63, 0x12b1edeb)
  {
    hide IsWord;
    Words0();
    Words2();
    Words3();
    Words4();
    Words5();
    Words6();
    NextWord(56, 0x1487472c, 0xcc7617db, 0xf0a64f5a, 0x9f47bf94, 0xef57b9cd);
    NextWord(57, 0xb20f7a99, 0xb9e66c34, 0x3e246a79, 0xf0a64f5a, 0xebe6b238);
    NextWord(58, 0xef57b9cd, 0xa9993667, 0x27333ba3, 0x3e246a79, 0x9fe3095e);
    NextWord(59, 0xebe6b238, 0x84badedd, 0x0c4763f2, 0x27333ba3, 0x78bc8d4b);
    NextWord(60, 0x9fe3095e, 0xc21462bc, 0x840abf27, 0x0c4763f2, 0xa43fcf15);
    NextWord(61, 0x78bc8d4b, 0x1487472c, 0x7a290d5d, 0x840abf27, 0x668b2ff8);
    NextWord(62, 0xa43fcf15, 0xb20f7a99, 0x065c43da, 0x7a290d5d, 0xeeaba2cc);
    NextWord(63, 0x668b2ff8, 0xef57b9cd, 0xfb3e89cb, 0x065c43da, 0x12b1edeb);
  }

  lemma Rounds0() returns (v: Hash)
    ensures IsState(8, v)
    ensures v == Hash(0x85a07b5f, 0xe5030380, 0x2b4209f5, 0x04409a6a,
                      0x0c657a79, 0x9b27a401, 0x714260ad, 0x43ada245)
  {
    assert K(0) == 0x428a2f98 && K(1) == 0x71374491 && K(2) == 0xb5c0fbcf && K(3) == 0xe9b5dba5;
    assert K(4) == 0x3956c25b && K(5) == 0x59f111f1 && K(6) == 0x923f82a4 && K(7) == 0xab1c5ed5;
    hide IsState, IsWord, K;
    Words0();
    Start();
    v := H0;
    v := Next(0, v, 0x61626380, 0x5d6aebcd, 0xfa2a4622);
    v := Next(1, v, 0x00000000, 0x5a6ad9ad, 0x78ce7989);
    v := Next(2, v, 0x00000000, 0xc8c347a7, 0xf92939eb);
    v := Next(3, v, 0x00000000, 0xd550f666, 0x24e00850);
    v := Next(4, v, 0x00000000, 0x04409a6a, 0x43ada245);
    v := Next(5, v, 0x00000000, 0x2b4209f5, 0x714260ad);
    v := Next(6, v, 0x00000000, 0xe5030380, 0x9b27a401);
    v := Next(7, v, 0x00000000, 0x85a07b5f, 0x0c657a79);
  }

  lemma Rounds1() returns (v: Hash)
    ensures IsState(16, v)
    ensures v == Hash(0xb0fa238e, 0xc0645fde, 0xd932eb16, 0x87912990,
                      0x07590dcd, 0x0b92f20c, 0x745a48de, 0x1e578218)
  {
    assert K(8) == 0xd807aa98 && K(9) == 0x12835b01 && K(10) == 0x243185be && K(11) == 0x550c7dc3;
    assert K(12) == 0x72be5d74 && K(13) == 0x80deb1fe && K(14) == 0x9bdc06a7 && K(15) == 0xc19bf174;
    hide IsState, IsWord, K;
    Words0();
    v := Rounds0();
    v := Next(8, v, 0x00000000, 0x8e04ecb9, 0x32ca2d8c);
    v := Next(9, v, 0x00000000, 0x8c87346b, 0x1cc92596);
    v := Next(10, v, 0x00000000, 0x4798a3f4, 0x436b23e8);
    v := Next(11, v, 0x00000000, 0xf71fc5a9, 0x816fd6e9);
    v := Next(12, v, 0x00000000, 0x87912990, 0x1e578218);
    v := Next(13, v, 0x00000000, 0xd932eb16, 0x745a48de);
    v := Next(14, v, 0x00000000, 0xc0645fde, 0x0b92f20c);
    v := Next(15, v, 0x00000018, 0xb0fa238e, 0x07590dcd);
  }

  lemma Rounds2() returns (v: Hash)
    ensures IsState(24, v)
    ensures v == Hash(0xc5d53d8d, 0xa7a3623f, 0xc2606d6d, 0x9dc68b63,
                      0xaa47c347, 0x49f5114a, 0xe1257970, 0x8ada8930)
  {
    assert K(16) == 0xe49b69c1 && K(17) == 0xefbe4786 && K(18) == 0x0fc19dc6 && K(19) == 0x240ca1cc;
    assert K(20) == 0x2de92c6f && K(21) == 0x4a7484aa && K(22) == 0x5cb0a9dc && K(23) == 0x76f988da;
    hide IsState, IsWord, K;
    Words2();
    v := Rounds1();
    v := Next(16, v, 0x61626380, 0x21da9a9b, 0x8034229c);
    v := Next(17, v, 0x000f0000, 0xc2fbd9d1, 0x846ee454);
    v := Next(18, v, 0x7da86405, 0xfe777bbf, 0xcc899961);
    v := Next(19, v, 0x600003c6, 0xe1f20c33, 0xb0638179);
    v := Next(20, v, 0x3e9d7b78, 0x9dc68b63, 0x8ada8930);
    v := Next(21, v, 0x0183fc00, 0xc2606d6d, 0xe1257970);
    v := Next(22, v, 0x12dcbfdb, 0xa7a3623f, 0x49f5114a);
    v := Next(23, v, 0xe2e2c38e, 0xc5d53d8d, 0xaa47c347);
  }

  lemma Rounds3() returns (v: Hash)
    ensures IsState(32, v)
    ensures v == Hash(0x73b33bf5, 0xea992a22, 0xa0060b30, 0x363482c9,
                      0xba591112, 0x0109ab3a, 0xade79437, 0x6112a3b7)
  {
    assert K(24) == 0x983e5152 && K(25) == 0xa831c66d && K(26) == 0xb00327c8 && K(27) == 0xbf597fc7;
    assert K(28) == 0xc6e00bf3 && K(29) == 0xd5a79147 && K(30) == 0x06ca6351 && K(31) == 0x14292967;
    hide IsState, IsWord, K;
    Words3();
    v := Rounds2();
    v := Next(24, v, 0xc8215c1a, 0x1c2c2838, 0x2823ef91);
    v := Next(25, v, 0xb73679a2, 0xcde8037d, 0x14383d8e);
    v := Next(26, v, 0xe5bc3909, 0xb62ec4bc, 0xc74c6516);
    v := Next(27, v, 0x32663c5b, 0x77d37528, 0xedffbff8);
    v := Next(28, v, 0x9d209d67, 0x363482c9, 0x6112a3b7);
    v := Next(29, v, 0xec8726cb, 0xa0060b30, 0xade79437);
    v := Next(30, v, 0x702138a4, 0xea992a22, 0x0109ab3a);
    v := Next(31, v, 0xd3b7973b, 0x73b33bf5, 0xba591112);
  }

  lemma Rounds4() returns (v: Hash)
    ensures IsState(40, v)
    ensures v == Hash(0x79ea687a, 0x6dc57a8a, 0x34df1604, 0x41a65cb1,
                      0x1efbc0a0, 0xf0781bc8, 0xa507a53d, 0x0772a26b)
  {
    assert K(32) == 0x27b70a85 && K(33) == 0x2e1b2138 && K(34) == 0x4d2c6dfc && K(35) == 0x53380d13;
    assert K(36) == 0x650a7354 && K(37) == 0x766a0abb && K(38) == 0x81c2c92e && K(39) == 0x92722c85;
    hide IsState, IsWord, K;
    Words4();
    v := Rounds3();
    v := Next(32, v, 0x93f5997f, 0x98e12507, 0x9cd9f5f6);
    v := Next(33, v, 0x3b68ba73, 0xfe604df5, 0x59249dd3);
    v := Next(34, v, 0xaff4ffc1, 0xa9a7738c, 0x085f3833);
    v := Next(35, v, 0xf10a5c62, 0x65a0cfe4, 0xf4b002d6);
    v := Next(36, v, 0x0a8b3996, 0x41a65cb1, 0x0772a26b);
    v := Next(37, v, 0x72af830a, 0x34df1604, 0xa507a53d);
    v := Next(38, v, 0x9409e33e, 0x6dc57a8a, 0xf0781bc8);
    v := Next(39, v, 0x24641522, 0x79ea687a, 0x1efbc0a0);
  }

  lemma Rounds5() returns (v: Hash)
    ensures IsState(48, v)
    ensures v == Hash(0x4172328d, 0xa14c14b0, 0x72ab4b91, 0x26628815,
                      0xfecf0bc6, 0xd57b94a9, 0xb7755da1, 0xa80f11f0)
  {
    assert K(40) == 0xa2bfe8a1 && K(41) == 0xa81a664b && K(42) == 0xc24b8b70 && K(43) == 0xc76c51a3;
    assert K(44) == 0xd192e819 && K(45) == 0xd6990624 && K(46) == 0xf40e3585 && K(47) == 0x106aa070;
    hide IsState, IsWord, K;
    Words5();
    v := Rounds4();
    v := Next(40, v, 0x9f47bf94, 0xd6670766, 0x26352d63);
    v := Next(41, v, 0xf0a64f5a, 0xdf46652f, 0x838b2711);
    v := Next(42, v, 0x3e246a79, 0x17aa0dfe, 0xdecd4715);
    v := Next(43, v, 0x27333ba3, 0x9d4baf93, 0xfda24c2e);
    v := Next(44, v, 0x0c4763f2, 0x26628815, 0xa80f11f0);
    v := Next(45, v, 0x840abf27, 0x72ab4b91, 0xb7755da1);
    v := Next(46, v, 0x7a290d5d, 0xa14c14b0, 0xd57b94a9);
    v := Next(47, v, 0x065c43da, 0x4172328d, 0xfecf0bc6);
  }

  lemma Rounds6() returns (v: Hash)
    ensures IsState(56, v)
    ensures v == Hash(0x38cc9913, 0x3ec45cdb, 0xf5702fdb, 0x101fd28f,
                      0x54cb266b, 0xe50e1b4f, 0x9f4787c3, 0x529e7d00)
  {
    assert K(48) == 0x19a4c116 && K(49) == 0x1e376c08 && K(50) == 0x2748774c && K(51) == 0x34b0bcb5;
    assert K(52) == 0x391c0cb3 && K(53) == 0x4ed8aa4a && K(54) == 0x5b9cca4f && K(55) == 0x682e6ff3;
    hide IsState, IsWord, K;
    Words6();
    v := Rounds5();
    v := Next(48, v, 0xfb3e89cb, 0x05757ceb, 0xbd714038);
    v := Next(49, v, 0xcc7617db, 0xf11bfaa8, 0x6e5c390c);
    v := Next(50, v, 0xb9e66c34, 0x7a0508a1, 0x52f1ccf7);
    v := Next(51, v, 0xa9993667, 0x886e7a22, 0x49231c1e);
    v := Next(52, v, 0x84badedd, 0x101fd28f, 0x529e7d00);
    v := Next(53, v, 0xc21462bc, 0xf5702fdb, 0x9f4787c3);
    v := Next(54, v, 0x1487472c, 0x3ec45cdb, 0xe50e1b4f);
    v := Next(55, v, 0xb20f7a99, 0x38cc9913, 0x54cb266b);
  }

  lemma Rounds7() returns (v: Hash)
    ensures IsState(64, v)
    ensures v == Hash(0x506e3058, 0xd39a2165, 0x04d24d6c, 0xb85e2ce9,
                      0x5ef50f24, 0xfb121210, 0x948d25b6, 0x961f4894)
  {
    assert K(56) == 0x748f82ee && K(57) == 0x78a5636f && K(58) == 0x84c87814 && K(59) == 0x8cc70208;
    assert K(60) == 0x90befffa && K(61) == 0xa4506ceb && K(62) == 0xbef9a3f7 && K(63) == 0xc67178f2;
    hide IsState, IsWord, K;
    Words7();
    v := Rounds6();
    v := Next(56, v, 0xef57b9cd, 0xfcd1887b, 0x9b5e906c);
    v := Next(57, v, 0xebe6b238, 0xc062d46f, 0x7e44008e);
    v := Next(58, v, 0x9fe3095e, 0xffb70472, 0x6d83bfc6);
    v := Next(59, v, 0x78bc8d4b, 0xb6ae8fff, 0xb21bad3d);
    v := Next(60, v, 0xa43fcf15, 0xb85e2ce9, 0x961f4894);
    v := Next(61, v, 0x668b2ff8, 0x04d24d6c, 0x948d25b6);
    v := Next(62, v, 0xeeaba2cc, 0xd39a2165, 0xfb121210);
    v := Next(63, v, 0x12b1edeb, 0x506e3058, 0x5ef50f24);
  }

  /** The sum of the initial and the final variables. */
  lemma AbcHash()
    ensures Sha256(ABC) == Hash(0xba7816bf, 0x8f01cfea, 0x414140de, 0x5dae2223,
                                0xb00361a3, 0x96177a9c, 0xb410ff61, 0xf20015ad)
  {
    PaddedIsBlock();
    var v := Rounds7();
    assert Compress(H0, BLOCK) == Hash(0xba7816bf, 0x8f01cfea, 0x414140de, 0x5dae2223,
                                       0xb00361a3, 0x96177a9c, 0xb410ff61, 0xf20015ad) by {
      hide Rounds;
    }
    hide Compress;
    assert BLOCK[..0] == [] && BLOCK[0..] == BLOCK;
  }

  /** The digits of a byte and of a word. */
  function Digits(b: word): string { [HighDigit(b), LowDigit(b)] }
  function WordText(w: word): string {
    Digits(ByteOf(w, 0)) + Digits(ByteOf(w, 1)) + Digits(ByteOf(w, 2)) + Digits(ByteOf(w, 3))
  }

  /** Eight digits of the text come from each word. */
  lemma WordOfText(h: Hash, k: nat)
    requires k < 8
    ensures Hex(h)[8 * k..8 * k + 8] == WordText(WordAt(h, k))
  {
    hide ByteOf, WordAt, HighDigit, LowDigit;
    var w := WordAt(h, k);
    forall i | 0 <= i < 8
      ensures Hex(h)[8 * k + i] == WordText(w)[i]
    {
      assert (8 * k + i) / 2 == 4 * k + i / 2;
      assert DigestBytes(h)[4 * k + i / 2] == ByteOf(w, i / 2);
    }
  }

  lemma EightWords(s: string)
    requires |s| == 64
    ensures s == s[0..8] + s[8..16] + s[16..24] + s[24..32] + s[32..40] + s[40..48] + s[48..56] + s[56..64]
  {
    assert s[0..16] == s[0..8] + s[8..16];
    assert s[0..24] == s[0..16] + s[16..24];
    assert s[0..32] == s[0..24] + s[24..32];
    assert s[0..40] == s[0..32] + s[32..40];
    assert s[0..48] == s[0..40] + s[40..48];
    assert s[0..56] == s[0..48] + s[48..56];
    assert s[0..64] == s[0..56] + s[56..64];
  }

  lemma FirstWords()
    ensures WordText(0xba7816bf) == "ba7816bf" && WordText(0x8f01cfea) == "8f01cfea"
    ensures WordText(0x414140de) == "414140de" && WordText(0x5dae2223) == "5dae2223"
  {}

  lemma LastWords()
    ensures WordText(0xb00361a3) == "b00361a3" && WordText(0x96177a9c) == "96177a9c"
    ensures WordText(0xb410ff61) == "b410ff61" && WordText(0xf20015ad) == "f20015ad"
  {}

  /** The published digest of "abc". */
  lemma AbcDigest()
    ensures HexSha256(ABC) == "ba7816bf" + "8f01cfea" + "414140de" + "5dae2223"
                            + "b00361a3" + "96177a9c" + "b410ff61" + "f20015ad"
  {
    AbcHash();
    var h := Sha256(ABC);
    FirstWords();
    LastWords();
    hide WordText, Sha256;
    WordOfText(h, 0); WordOfText(h, 1); WordOfText(h, 2); WordOfText(h, 3);
    WordOfText(h, 4); WordOfText(h, 5); WordOfText(h, 6); WordOfText(h, 7);
    HexSha256IsHex(ABC);
    hide Hex;
    EightWords(Hex(h));
  }
}
