/**
 * A digest computed in the model: the test vector "hello world" of the repository. Each lemma evaluates
 * eight words of the message schedule, or eight rounds.
 */
module Sha256Example {
  import opened Bytes
  import opened Sha256Spec

  const HELLO_WORLD: seq<byte> := [0x68, 0x65, 0x6c, 0x6c, 0x6f, 0x20, 0x77, 0x6f, 0x72, 0x6c, 0x64]

  /** The message, padded. */
  const BLOCK: Block :=
    HELLO_WORLD + [0x80] + Zeros(44) + [0x00, 0x00, 0x00, 0x00, 0x00, 0x00, 0x00, 0x58]

  lemma BlockIsPadded()
    ensures BLOCK == HELLO_WORLD + Padding(|HELLO_WORLD|)
  {
    LengthField();
    assert (55 - 11) % 64 == 44;
  }

  lemma LengthField()
    ensures BigEndian(88, 8) == [0x00, 0x00, 0x00, 0x00, 0x00, 0x00, 0x00, 0x58]
  {
    ZeroField(7);
    assert BigEndian(88, 8) == BigEndian(0, 7) + [ByteOf(88)];
  }

  lemma {:induction false} ZeroField(k: nat)
    ensures BigEndian(0, k) == Zeros(k)
  {
    if k > 0 {
      ZeroField(k - 1);
    }
  }

  lemma Words0()
    ensures W(BLOCK, 0) == 0x68656c6c
      && W(BLOCK, 1) == 0x6f20776f
      && W(BLOCK, 2) == 0x726c6480
      && W(BLOCK, 3) == 0x00000000
      && W(BLOCK, 4) == 0x00000000
      && W(BLOCK, 5) == 0x00000000
      && W(BLOCK, 6) == 0x00000000
      && W(BLOCK, 7) == 0x00000000
      && W(BLOCK, 8) == 0x00000000
      && W(BLOCK, 9) == 0x00000000
      && W(BLOCK, 10) == 0x00000000
      && W(BLOCK, 11) == 0x00000000
      && W(BLOCK, 12) == 0x00000000
      && W(BLOCK, 13) == 0x00000000
      && W(BLOCK, 14) == 0x00000000
      && W(BLOCK, 15) == 0x00000058
  {
    hide W;
    WordIs(0, 0x68, 0x65, 0x6c, 0x6c, 0x68656c6c);
    WordIs(1, 0x6f, 0x20, 0x77, 0x6f, 0x6f20776f);
    WordIs(2, 0x72, 0x6c, 0x64, 0x80, 0x726c6480);
    WordIs(3, 0x00, 0x00, 0x00, 0x00, 0x00000000);
    WordIs(4, 0x00, 0x00, 0x00, 0x00, 0x00000000);
    WordIs(5, 0x00, 0x00, 0x00, 0x00, 0x00000000);
    WordIs(6, 0x00, 0x00, 0x00, 0x00, 0x00000000);
    WordIs(7, 0x00, 0x00, 0x00, 0x00, 0x00000000);
    WordIs(8, 0x00, 0x00, 0x00, 0x00, 0x00000000);
    WordIs(9, 0x00, 0x00, 0x00, 0x00, 0x00000000);
    WordIs(10, 0x00, 0x00, 0x00, 0x00, 0x00000000);
    WordIs(11, 0x00, 0x00, 0x00, 0x00, 0x00000000);
    WordIs(12, 0x00, 0x00, 0x00, 0x00, 0x00000000);
    WordIs(13, 0x00, 0x00, 0x00, 0x00, 0x00000000);
    WordIs(14, 0x00, 0x00, 0x00, 0x00, 0x00000000);
    WordIs(15, 0x00, 0x00, 0x00, 0x58, 0x00000058);
  }

  lemma WordIs(t: nat, b0: byte, b1: byte, b2: byte, b3: byte, w: word)
    requires t < 16 && FromBytes(b0, b1, b2, b3) == w
    requires BLOCK[4 * t] == b0 && BLOCK[4 * t + 1] == b1 && BLOCK[4 * t + 2] == b2 && BLOCK[4 * t + 3] == b3
    ensures W(BLOCK, t) == w
  {
  }

  lemma NextWord(t: nat, w2: word, w7: word, w15: word, w16: word, w: word)
    requires t >= 16
    requires W(BLOCK, t - 2) == w2 && W(BLOCK, t - 7) == w7 && W(BLOCK, t - 15) == w15 && W(BLOCK, t - 16) == w16
    requires Sum4(SmallSigma1(w2), w7, SmallSigma0(w15), w16) == w
    ensures W(BLOCK, t) == w
  {
    hide Sum4, SmallSigma0, SmallSigma1;
  }

  lemma Words1()
    ensures W(BLOCK, 16) == 0x37470237
      && W(BLOCK, 17) == 0x86d0c031
      && W(BLOCK, 18) == 0xd3bd110b
      && W(BLOCK, 19) == 0x783f4782
      && W(BLOCK, 20) == 0x2a907ced
      && W(BLOCK, 21) == 0x4b2f7cc9
      && W(BLOCK, 22) == 0x31e1945d
      && W(BLOCK, 23) == 0x89364964
  {
    hide W;
    Words0();
    NextWord(16, 0x00000000, 0x00000000, 0x6f20776f, 0x68656c6c, 0x37470237);
    NextWord(17, 0x00000058, 0x00000000, 0x726c6480, 0x6f20776f, 0x86d0c031);
    NextWord(18, 0x37470237, 0x00000000, 0x00000000, 0x726c6480, 0xd3bd110b);
    NextWord(19, 0x86d0c031, 0x00000000, 0x00000000, 0x00000000, 0x783f4782);
    NextWord(20, 0xd3bd110b, 0x00000000, 0x00000000, 0x00000000, 0x2a907ced);
    NextWord(21, 0x783f4782, 0x00000000, 0x00000000, 0x00000000, 0x4b2f7cc9);
    NextWord(22, 0x2a907ced, 0x00000058, 0x00000000, 0x00000000, 0x31e1945d);
    NextWord(23, 0x4b2f7cc9, 0x37470237, 0x00000000, 0x00000000, 0x89364964);
  }

  lemma Words2()
    ensures W(BLOCK, 24) == 0x7f7a06da
      && W(BLOCK, 25) == 0xc179a93a
      && W(BLOCK, 26) == 0xbbe8f655
      && W(BLOCK, 27) == 0x0c1ae3e6
      && W(BLOCK, 28) == 0xb0fe0d7d
      && W(BLOCK, 29) == 0x5f6e5593
      && W(BLOCK, 30) == 0x00899b52
      && W(BLOCK, 31) == 0x07f1ca94
  {
    hide W;
    Words0();
    Words1();
    NextWord(24, 0x31e1945d, 0x86d0c031, 0x00000000, 0x00000000, 0x7f7a06da);
    NextWord(25, 0x89364964, 0xd3bd110b, 0x00000000, 0x00000000, 0xc179a93a);
    NextWord(26, 0x7f7a06da, 0x783f4782, 0x00000000, 0x00000000, 0xbbe8f655);
    NextWord(27, 0xc179a93a, 0x2a907ced, 0x00000000, 0x00000000, 0x0c1ae3e6);
    NextWord(28, 0xbbe8f655, 0x4b2f7cc9, 0x00000000, 0x00000000, 0xb0fe0d7d);
    NextWord(29, 0x0c1ae3e6, 0x31e1945d, 0x00000000, 0x00000000, 0x5f6e5593);
    NextWord(30, 0xb0fe0d7d, 0x89364964, 0x00000058, 0x00000000, 0x00899b52);
    NextWord(31, 0x5f6e5593, 0x7f7a06da, 0x37470237, 0x00000058, 0x07f1ca94);
  }

  lemma Words3()
    ensures W(BLOCK, 32) == 0x3b5fe5d6
      && W(BLOCK, 33) == 0x686562e6
      && W(BLOCK, 34) == 0xc84e0a9e
      && W(BLOCK, 35) == 0x06af9b25
      && W(BLOCK, 36) == 0x92ef64d7
      && W(BLOCK, 37) == 0x63f95e5a
      && W(BLOCK, 38) == 0xe31667d7
      && W(BLOCK, 39) == 0x843bde16
  {
    hide W;
    Words2();
    Words1();
    NextWord(32, 0x00899b52, 0xc179a93a, 0x86d0c031, 0x37470237, 0x3b5fe5d6);
    NextWord(33, 0x07f1ca94, 0xbbe8f655, 0xd3bd110b, 0x86d0c031, 0x686562e6);
    NextWord(34, 0x3b5fe5d6, 0x0c1ae3e6, 0x783f4782, 0xd3bd110b, 0xc84e0a9e);
    NextWord(35, 0x686562e6, 0xb0fe0d7d, 0x2a907ced, 0x783f4782, 0x06af9b25);
    NextWord(36, 0xc84e0a9e, 0x5f6e5593, 0x4b2f7cc9, 0x2a907ced, 0x92ef64d7);
    NextWord(37, 0x06af9b25, 0x00899b52, 0x31e1945d, 0x4b2f7cc9, 0x63f95e5a);
    NextWord(38, 0x92ef64d7, 0x07f1ca94, 0x89364964, 0x31e1945d, 0xe31667d7);
    NextWord(39, 0x63f95e5a, 0x3b5fe5d6, 0x7f7a06da, 0x89364964, 0x843bde16);
  }

  lemma Words4()
    ensures W(BLOCK, 40) == 0xeeeca85b
      && W(BLOCK, 41) == 0xa04ff221
      && W(BLOCK, 42) == 0xf918adb8
      && W(BLOCK, 43) == 0x14a89219
      && W(BLOCK, 44) == 0x1084531d
      && W(BLOCK, 45) == 0x6093e0cd
      && W(BLOCK, 46) == 0x83035fe9
      && W(BLOCK, 47) == 0xd5ae7938
  {
    hide W;
    Words3();
    Words2();
    NextWord(40, 0xe31667d7, 0x686562e6, 0xc179a93a, 0x7f7a06da, 0xeeeca85b);
    NextWord(41, 0x843bde16, 0xc84e0a9e, 0xbbe8f655, 0xc179a93a, 0xa04ff221);
    NextWord(42, 0xeeeca85b, 0x06af9b25, 0x0c1ae3e6, 0xbbe8f655, 0xf918adb8);
    NextWord(43, 0xa04ff221, 0x92ef64d7, 0xb0fe0d7d, 0x0c1ae3e6, 0x14a89219);
    NextWord(44, 0xf918adb8, 0x63f95e5a, 0x5f6e5593, 0xb0fe0d7d, 0x1084531d);
    NextWord(45, 0x14a89219, 0xe31667d7, 0x00899b52, 0x5f6e5593, 0x6093e0cd);
    NextWord(46, 0x1084531d, 0x843bde16, 0x07f1ca94, 0x00899b52, 0x83035fe9);
    NextWord(47, 0x6093e0cd, 0xeeeca85b, 0x3b5fe5d6, 0x07f1ca94, 0xd5ae7938);
  }

  lemma Words5()
    ensures W(BLOCK, 48) == 0x393f05ad
      && W(BLOCK, 49) == 0xfb4b1bef
      && W(BLOCK, 50) == 0xeb75ff29
      && W(BLOCK, 51) == 0x6a369534
      && W(BLOCK, 52) == 0x22fc9cd8
      && W(BLOCK, 53) == 0xa9740d2b
      && W(BLOCK, 54) == 0x60cf3885
      && W(BLOCK, 55) == 0xc4ac983a
  {
    hide W;
    Words4();
    Words3();
    NextWord(48, 0x83035fe9, 0xa04ff221, 0x686562e6, 0x3b5fe5d6, 0x393f05ad);
    NextWord(49, 0xd5ae7938, 0xf918adb8, 0xc84e0a9e, 0x686562e6, 0xfb4b1bef);
    NextWord(50, 0x393f05ad, 0x14a89219, 0x06af9b25, 0xc84e0a9e, 0xeb75ff29);
    NextWord(51, 0xfb4b1bef, 0x1084531d, 0x92ef64d7, 0x06af9b25, 0x6a369534);
    NextWord(52, 0xeb75ff29, 0x6093e0cd, 0x63f95e5a, 0x92ef64d7, 0x22fc9cd8);
    NextWord(53, 0x6a369534, 0x83035fe9, 0xe31667d7, 0x63f95e5a, 0xa9740d2b);
    NextWord(54, 0x22fc9cd8, 0xd5ae7938, 0x843bde16, 0xe31667d7, 0x60cf3885);
    NextWord(55, 0xa9740d2b, 0x393f05ad, 0xeeeca85b, 0x843bde16, 0xc4ac983a);
  }

  lemma Words6()
    ensures W(BLOCK, 56) == 0x1142fdad
      && W(BLOCK, 57) == 0xb0b01dd9
      && W(BLOCK, 58) == 0x98f0c36f
      && W(BLOCK, 59) == 0x7217b81e
      && W(BLOCK, 60) == 0xa2d4679a
      && W(BLOCK, 61) == 0x010f997b
      && W(BLOCK, 62) == 0xfc174f0a
      && W(BLOCK, 63) == 0xc2c2eb16
  {
    hide W;
    Words5();
    Words4();
    NextWord(56, 0x60cf3885, 0xfb4b1bef, 0xa04ff221, 0xeeeca85b, 0x1142fdad);
    NextWord(57, 0xc4ac983a, 0xeb75ff29, 0xf918adb8, 0xa04ff221, 0xb0b01dd9);
    NextWord(58, 0x1142fdad, 0x6a369534, 0x14a89219, 0xf918adb8, 0x98f0c36f);
    NextWord(59, 0xb0b01dd9, 0x22fc9cd8, 0x1084531d, 0x14a89219, 0x7217b81e);
    NextWord(60, 0x98f0c36f, 0xa9740d2b, 0x6093e0cd, 0x1084531d, 0xa2d4679a);
    NextWord(61, 0x7217b81e, 0x60cf3885, 0x83035fe9, 0x6093e0cd, 0x010f997b);
    NextWord(62, 0xa2d4679a, 0xc4ac983a, 0xd5ae7938, 0x83035fe9, 0xfc174f0a);
    NextWord(63, 0x010f997b, 0x1142fdad, 0x393f05ad, 0xd5ae7938, 0xc2c2eb16);
  }

  /** One round: only a and e are new. */
  lemma Step(t: nat, v: Working, w: word, a: word, e: word) returns (r: Working)
    requires t < 64 && Rounds(IV, BLOCK, t) == v && W(BLOCK, t) == w
    requires Round(v, K[t], w) == Working(a, v.a, v.b, v.c, e, v.e, v.f, v.g)
    ensures r == Working(a, v.a, v.b, v.c, e, v.e, v.f, v.g) && Rounds(IV, BLOCK, t + 1) == r
  {
    hide Round, W;
    r := Round(v, K[t], w);
  }

  lemma Rounds0()
    ensures Rounds(IV, BLOCK, 8)
      == Working(0x4be34fec, 0xd00381a8, 0x865344c3, 0xf486c606, 0xe36a0f9d, 0xf2081ec0, 0x9d3d2193, 0x46268669)
  {
    hide W, Rounds;
    Words0();
    StartIs();
    KRow0();
    var v := Working(0x6a09e667, 0xbb67ae85, 0x3c6ef372, 0xa54ff53a, 0x510e527f, 0x9b05688c, 0x1f83d9ab, 0x5be0cd19);
    v := Step(0, v, 0x68656c6c, 0x646df4b9, 0x012d4f0e);
    v := Step(1, v, 0x6f20776f, 0x9fbbb243, 0x26ba0340);
    v := Step(2, v, 0x726c6480, 0x5363d10e, 0x056669fd);
    v := Step(3, v, 0x00000000, 0xa2cb4769, 0x217ae7b5);
    v := Step(4, v, 0x00000000, 0xf486c606, 0x46268669);
    v := Step(5, v, 0x00000000, 0x865344c3, 0x9d3d2193);
    v := Step(6, v, 0x00000000, 0xd00381a8, 0xf2081ec0);
    v := Step(7, v, 0x00000000, 0x4be34fec, 0xe36a0f9d);
  }

  lemma Rounds1()
    ensures Rounds(IV, BLOCK, 16)
      == Working(0x829e492b, 0xd63e2c26, 0x4354f5d2, 0x14331d35, 0xa8ac99c4, 0x1d13ea2b, 0x4a0a41c5, 0xa1fd6572)
  {
    hide W, Rounds;
    Words0();
    Rounds0();
    KRow1();
    var v := Working(0x4be34fec, 0xd00381a8, 0x865344c3, 0xf486c606, 0xe36a0f9d, 0xf2081ec0, 0x9d3d2193, 0x46268669);
    v := Step(8, v, 0x00000000, 0xf069eec7, 0x42083117);
    v := Step(9, v, 0x00000000, 0x1bc42df7, 0xa414bb8f);
    v := Step(10, v, 0x00000000, 0xb4bc6a5a, 0x6ee072e8);
    v := Step(11, v, 0x00000000, 0xa84e2f6f, 0x34f13add);
    v := Step(12, v, 0x00000000, 0x14331d35, 0xa1fd6572);
    v := Step(13, v, 0x00000000, 0x4354f5d2, 0x4a0a41c5);
    v := Step(14, v, 0x00000000, 0xd63e2c26, 0x1d13ea2b);
    v := Step(15, v, 0x00000058, 0x829e492b, 0xa8ac99c4);
  }

  lemma Rounds2()
    ensures Rounds(IV, BLOCK, 24)
      == Working(0x87a4dc59, 0x9ac6cb79, 0xf813193b, 0x48f3719a, 0x17ae59dc, 0x075e2cb1, 0x5186923d, 0x8e9ce42a)
  {
    hide W, Rounds;
    Words1();
    Rounds1();
    KRow2();
    var v := Working(0x829e492b, 0xd63e2c26, 0x4354f5d2, 0x14331d35, 0xa8ac99c4, 0x1d13ea2b, 0x4a0a41c5, 0xa1fd6572);
    v := Step(16, v, 0x37470237, 0x175b74df, 0x9890fc40);
    v := Step(17, v, 0x86d0c031, 0xb547dd69, 0x53814b5b);
    v := Step(18, v, 0xd3bd110b, 0xb08aa389, 0x55ff7693);
    v := Step(19, v, 0x783f4782, 0x8f2d5941, 0x019ea22e);
    v := Step(20, v, 0x2a907ced, 0x48f3719a, 0x8e9ce42a);
    v := Step(21, v, 0x4b2f7cc9, 0xf813193b, 0x5186923d);
    v := Step(22, v, 0x31e1945d, 0x9ac6cb79, 0x075e2cb1);
    v := Step(23, v, 0x89364964, 0x87a4dc59, 0x17ae59dc);
  }

  lemma Rounds3()
    ensures Rounds(IV, BLOCK, 32)
      == Working(0x86882a8c, 0x6460b31a, 0xa7c8c0c8, 0x24118386, 0xddcadebe, 0x3e7738bc, 0x058b0a6e, 0x16808d93)
  {
    hide W, Rounds;
    Words2();
    Rounds2();
    KRow3();
    var v := Working(0x87a4dc59, 0x9ac6cb79, 0xf813193b, 0x48f3719a, 0x17ae59dc, 0x075e2cb1, 0x5186923d, 0x8e9ce42a);
    v := Step(24, v, 0x7f7a06da, 0x352faf55, 0xd347db48);
    v := Step(25, v, 0xc179a93a, 0xdd1139b1, 0xb41e6d17);
    v := Step(26, v, 0xbbe8f655, 0x8d53351b, 0x94c7e1b2);
    v := Step(27, v, 0x0c1ae3e6, 0xfe8a9e0e, 0xe1bf736c);
    v := Step(28, v, 0xb0fe0d7d, 0x24118386, 0x16808d93);
    v := Step(29, v, 0x5f6e5593, 0xa7c8c0c8, 0x058b0a6e);
    v := Step(30, v, 0x00899b52, 0x6460b31a, 0x3e7738bc);
    v := Step(31, v, 0x07f1ca94, 0x86882a8c, 0xddcadebe);
  }

  lemma Rounds4()
    ensures Rounds(IV, BLOCK, 40)
      == Working(0x67168510, 0xba6962c9, 0x1573cb0c, 0x4cf89d15, 0xc0553ff6, 0xf0dc6430, 0x63c355e3, 0x7982a293)
  {
    hide W, Rounds;
    Words3();
    Rounds3();
    KRow4();
    var v := Working(0x86882a8c, 0x6460b31a, 0xa7c8c0c8, 0x24118386, 0xddcadebe, 0x3e7738bc, 0x058b0a6e, 0x16808d93);
    v := Step(32, v, 0x3b5fe5d6, 0x5bd313b9, 0x83afe7bf);
    v := Step(33, v, 0x686562e6, 0x0624b59e, 0xdfbc43b5);
    v := Step(34, v, 0xc84e0a9e, 0x1df50574, 0xbc262098);
    v := Step(35, v, 0x06af9b25, 0x53153303, 0xc0dfc951);
    v := Step(36, v, 0x92ef64d7, 0x4cf89d15, 0x7982a293);
    v := Step(37, v, 0x63f95e5a, 0x1573cb0c, 0x63c355e3);
    v := Step(38, v, 0xe31667d7, 0xba6962c9, 0xf0dc6430);
    v := Step(39, v, 0x843bde16, 0x67168510, 0xc0553ff6);
  }

  lemma Rounds5()
    ensures Rounds(IV, BLOCK, 48)
      == Working(0xc0e967d9, 0xd4802268, 0xb089bcac, 0xc834cdb2, 0xb66968ea, 0x5633b810, 0x92eb8b4a, 0x812665c6)
  {
    hide W, Rounds;
    Words4();
    Rounds4();
    KRow5();
    var v := Working(0x67168510, 0xba6962c9, 0x1573cb0c, 0x4cf89d15, 0xc0553ff6, 0xf0dc6430, 0x63c355e3, 0x7982a293);
    v := Step(40, v, 0xeeeca85b, 0xa112d86c, 0x4b44da0d);
    v := Step(41, v, 0xa04ff221, 0xb746362a, 0x896734e5);
    v := Step(42, v, 0xf918adb8, 0x5a16acee, 0x690cde29);
    v := Step(43, v, 0x14a89219, 0xecefbd82, 0xf5aac33e);
    v := Step(44, v, 0x1084531d, 0xc834cdb2, 0x812665c6);
    v := Step(45, v, 0x6093e0cd, 0xb089bcac, 0x92eb8b4a);
    v := Step(46, v, 0x83035fe9, 0xd4802268, 0x5633b810);
    v := Step(47, v, 0xd5ae7938, 0xc0e967d9, 0xb66968ea);
  }

  lemma Rounds6()
    ensures Rounds(IV, BLOCK, 56)
      == Working(0x7c31c40c, 0x6e46ef0a, 0x208a86ff, 0x95b8193a, 0x5a2ccb8a, 0xc7771c15, 0x812461f9, 0x2e2a5a2c)
  {
    hide W, Rounds;
    Words5();
    Rounds5();
    KRow6();
    var v := Working(0xc0e967d9, 0xd4802268, 0xb089bcac, 0xc834cdb2, 0xb66968ea, 0x5633b810, 0x92eb8b4a, 0x812665c6);
    v := Step(48, v, 0x393f05ad, 0x29dd5604, 0x361dc310);
    v := Step(49, v, 0xfb4b1bef, 0xdeb03a04, 0xff62849c);
    v := Step(50, v, 0xeb75ff29, 0xe0789db2, 0xc49c619c);
    v := Step(51, v, 0x6a369534, 0xfb047704, 0x1af5d1b0);
    v := Step(52, v, 0x22fc9cd8, 0x95b8193a, 0x2e2a5a2c);
    v := Step(53, v, 0xa9740d2b, 0x208a86ff, 0x812461f9);
    v := Step(54, v, 0x60cf3885, 0x6e46ef0a, 0xc7771c15);
    v := Step(55, v, 0xc4ac983a, 0x7c31c40c, 0x5a2ccb8a);
  }

  lemma Rounds7()
    ensures Rounds(IV, BLOCK, 64)
      == Working(0x4f434152, 0xd7e58f83, 0x68bf5f65, 0x352db6c0, 0x73769d64, 0xdf4e1862, 0x71051e01, 0x870f00d0)
  {
    hide W, Rounds;
    Words6();
    Rounds6();
    KRow7();
    var v := Working(0x7c31c40c, 0x6e46ef0a, 0x208a86ff, 0x95b8193a, 0x5a2ccb8a, 0xc7771c15, 0x812461f9, 0x2e2a5a2c);
    v := Step(56, v, 0x1142fdad, 0x29e99e5d, 0x5b1f500c);
    v := Step(57, v, 0xb0b01dd9, 0xd3817269, 0x68bfcee0);
    v := Step(58, v, 0x98f0c36f, 0x9da16fc4, 0xafdf20a2);
    v := Step(59, v, 0x7217b81e, 0xb9bacf66, 0xbf577099);
    v := Step(60, v, 0xa2d4679a, 0x352db6c0, 0x870f00d0);
    v := Step(61, v, 0x010f997b, 0x68bf5f65, 0x71051e01);
    v := Step(62, v, 0xfc174f0a, 0xd7e58f83, 0xdf4e1862);
    v := Step(63, v, 0xc2c2eb16, 0x4f434152, 0x73769d64);
  }

  lemma StartIs()
    ensures Rounds(IV, BLOCK, 0)
      == Working(0x6a09e667, 0xbb67ae85, 0x3c6ef372, 0xa54ff53a, 0x510e527f, 0x9b05688c, 0x1f83d9ab, 0x5be0cd19)
  {
  }

  lemma KRow0()
    ensures K[0] == 0x428a2f98
      && K[1] == 0x71374491
      && K[2] == 0xb5c0fbcf
      && K[3] == 0xe9b5dba5
      && K[4] == 0x3956c25b
      && K[5] == 0x59f111f1
      && K[6] == 0x923f82a4
      && K[7] == 0xab1c5ed5
  {
  }

  lemma KRow1()
    ensures K[8] == 0xd807aa98
      && K[9] == 0x12835b01
      && K[10] == 0x243185be
      && K[11] == 0x550c7dc3
      && K[12] == 0x72be5d74
      && K[13] == 0x80deb1fe
      && K[14] == 0x9bdc06a7
      && K[15] == 0xc19bf174
  {
  }

  lemma KRow2()
    ensures K[16] == 0xe49b69c1
      && K[17] == 0xefbe4786
      && K[18] == 0x0fc19dc6
      && K[19] == 0x240ca1cc
      && K[20] == 0x2de92c6f
      && K[21] == 0x4a7484aa
      && K[22] == 0x5cb0a9dc
      && K[23] == 0x76f988da
  {
  }

  lemma KRow3()
    ensures K[24] == 0x983e5152
      && K[25] == 0xa831c66d
      && K[26] == 0xb00327c8
      && K[27] == 0xbf597fc7
      && K[28] == 0xc6e00bf3
      && K[29] == 0xd5a79147
      && K[30] == 0x06ca6351
      && K[31] == 0x14292967
  {
  }

  lemma KRow4()
    ensures K[32] == 0x27b70a85
      && K[33] == 0x2e1b2138
      && K[34] == 0x4d2c6dfc
      && K[35] == 0x53380d13
      && K[36] == 0x650a7354
      && K[37] == 0x766a0abb
      && K[38] == 0x81c2c92e
      && K[39] == 0x92722c85
  {
  }

  lemma KRow5()
    ensures K[40] == 0xa2bfe8a1
      && K[41] == 0xa81a664b
      && K[42] == 0xc24b8b70
      && K[43] == 0xc76c51a3
      && K[44] == 0xd192e819
      && K[45] == 0xd6990624
      && K[46] == 0xf40e3585
      && K[47] == 0x106aa070
  {
  }

  lemma KRow6()
    ensures K[48] == 0x19a4c116
      && K[49] == 0x1e376c08
      && K[50] == 0x2748774c
      && K[51] == 0x34b0bcb5
      && K[52] == 0x391c0cb3
      && K[53] == 0x4ed8aa4a
      && K[54] == 0x5b9cca4f
      && K[55] == 0x682e6ff3
  {
  }

  lemma KRow7()
    ensures K[56] == 0x748f82ee
      && K[57] == 0x78a5636f
      && K[58] == 0x84c87814
      && K[59] == 0x8cc70208
      && K[60] == 0x90befffa
      && K[61] == 0xa4506ceb
      && K[62] == 0xbef9a3f7
      && K[63] == 0xc67178f2
  {
  }

  /** The digest of "hello world". */
  lemma HelloWorld()
    ensures Sha256(HELLO_WORLD) == [
      0xb9, 0x4d, 0x27, 0xb9, 0x93, 0x4d, 0x3e, 0x08, 0xa5, 0x2e, 0x52, 0xd7, 0xda, 0x7d, 0xab, 0xfa,
      0xc4, 0x84, 0xef, 0xe3, 0x7a, 0x53, 0x80, 0xee, 0x90, 0x88, 0xf7, 0xac, 0xe2, 0xef, 0xcd, 0xe9]
  {
    hide Rounds, W, Compress, Absorb;
    BlockIsPadded();
    CompressBlock();
    OneBlock();
    DigestBytes();
  }

  lemma OneBlock()
    ensures Absorb(IV, BLOCK) == Compress(IV, BLOCK)
  {
    hide Compress;
    assert BLOCK[..64] == BLOCK && BLOCK[64..] == [];
  }

  const RESULT: Chain := [
    0xb94d27b9, 0x934d3e08, 0xa52e52d7, 0xda7dabfa, 0xc484efe3, 0x7a5380ee, 0x9088f7ac, 0xe2efcde9]

  lemma CompressBlock()
    ensures Compress(IV, BLOCK) == RESULT
  {
    hide Rounds;
    Rounds7();
  }

  lemma DigestBytes()
    ensures BytesOf(RESULT) == [
      0xb9, 0x4d, 0x27, 0xb9, 0x93, 0x4d, 0x3e, 0x08, 0xa5, 0x2e, 0x52, 0xd7, 0xda, 0x7d, 0xab, 0xfa,
      0xc4, 0x84, 0xef, 0xe3, 0x7a, 0x53, 0x80, 0xee, 0x90, 0x88, 0xf7, 0xac, 0xe2, 0xef, 0xcd, 0xe9]
  {
    hide BytesOf;
    NoBytes();
    var s: seq<word> := [];
    s := AppendWord(s, 0xb94d27b9, 0xb9, 0x4d, 0x27, 0xb9);
    s := AppendWord(s, 0x934d3e08, 0x93, 0x4d, 0x3e, 0x08);
    s := AppendWord(s, 0xa52e52d7, 0xa5, 0x2e, 0x52, 0xd7);
    s := AppendWord(s, 0xda7dabfa, 0xda, 0x7d, 0xab, 0xfa);
    s := AppendWord(s, 0xc484efe3, 0xc4, 0x84, 0xef, 0xe3);
    s := AppendWord(s, 0x7a5380ee, 0x7a, 0x53, 0x80, 0xee);
    s := AppendWord(s, 0x9088f7ac, 0x90, 0x88, 0xf7, 0xac);
    s := AppendWord(s, 0xe2efcde9, 0xe2, 0xef, 0xcd, 0xe9);
    assert s == RESULT;
  }

  lemma NoBytes()
    ensures BytesOf([]) == []
  {
  }

  lemma AppendWord(s: seq<word>, w: word, b0: byte, b1: byte, b2: byte, b3: byte) returns (t: seq<word>)
    requires ToBytes(w) == [b0, b1, b2, b3]
    ensures t == s + [w] && BytesOf(t) == BytesOf(s) + [b0, b1, b2, b3]
  {
    hide ToBytes;
    t := s + [w];
    assert t[..|s|] == s;
  }
}
