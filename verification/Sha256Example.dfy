/** The first of the SHA-256 examples that NIST publishes with FIPS 180-4, worked through the
    specification round by round: it pins every constant, rotation and byte order of the hash. */
module Sha256Example {
  import opened Bytes
  import opened BlockStream
  import opened Sha256

  const ABC: Bytes := [0x61, 0x62, 0x63]

  const DIGEST: Bytes :=
    [0xba, 0x78, 0x16, 0xbf] + [0x8f, 0x01, 0xcf, 0xea] + [0x41, 0x41, 0x40, 0xde] + [0x5d, 0xae, 0x22, 0x23]
    + [0xb0, 0x03, 0x61, 0xa3] + [0x96, 0x17, 0x7a, 0x9c] + [0xb4, 0x10, 0xff, 0x61] + [0xf2, 0x00, 0x15, 0xad]

  // The message schedule, eight words to a row

  const W0: seq<Word> := [0x61626380, 0x00000000, 0x00000000, 0x00000000, 0x00000000, 0x00000000, 0x00000000, 0x00000000]
  const W1: seq<Word> := [0x00000000, 0x00000000, 0x00000000, 0x00000000, 0x00000000, 0x00000000, 0x00000000, 0x00000018]
  const W2: seq<Word> := [0x61626380, 0x000f0000, 0x7da86405, 0x600003c6, 0x3e9d7b78, 0x0183fc00, 0x12dcbfdb, 0xe2e2c38e]
  const W3: seq<Word> := [0xc8215c1a, 0xb73679a2, 0xe5bc3909, 0x32663c5b, 0x9d209d67, 0xec8726cb, 0x702138a4, 0xd3b7973b]
  const W4: seq<Word> := [0x93f5997f, 0x3b68ba73, 0xaff4ffc1, 0xf10a5c62, 0x0a8b3996, 0x72af830a, 0x9409e33e, 0x24641522]
  const W5: seq<Word> := [0x9f47bf94, 0xf0a64f5a, 0x3e246a79, 0x27333ba3, 0x0c4763f2, 0x840abf27, 0x7a290d5d, 0x065c43da]
  const W6: seq<Word> := [0xfb3e89cb, 0xcc7617db, 0xb9e66c34, 0xa9993667, 0x84badedd, 0xc21462bc, 0x1487472c, 0xb20f7a99]
  const W7: seq<Word> := [0xef57b9cd, 0xebe6b238, 0x9fe3095e, 0x78bc8d4b, 0xa43fcf15, 0x668b2ff8, 0xeeaba2cc, 0x12b1edeb]

  // The working variables after every fourth round

  const V4 := Words(0xd550f666, 0xc8c347a7, 0x5a6ad9ad, 0x5d6aebcd, 0x24e00850, 0xf92939eb, 0x78ce7989, 0xfa2a4622)
  const V8 := Words(0x85a07b5f, 0xe5030380, 0x2b4209f5, 0x04409a6a, 0x0c657a79, 0x9b27a401, 0x714260ad, 0x43ada245)
  const V12 := Words(0xf71fc5a9, 0x4798a3f4, 0x8c87346b, 0x8e04ecb9, 0x816fd6e9, 0x436b23e8, 0x1cc92596, 0x32ca2d8c)
  const V16 := Words(0xb0fa238e, 0xc0645fde, 0xd932eb16, 0x87912990, 0x07590dcd, 0x0b92f20c, 0x745a48de, 0x1e578218)
  const V20 := Words(0xe1f20c33, 0xfe777bbf, 0xc2fbd9d1, 0x21da9a9b, 0xb0638179, 0xcc899961, 0x846ee454, 0x8034229c)
  const V24 := Words(0xc5d53d8d, 0xa7a3623f, 0xc2606d6d, 0x9dc68b63, 0xaa47c347, 0x49f5114a, 0xe1257970, 0x8ada8930)
  const V28 := Words(0x77d37528, 0xb62ec4bc, 0xcde8037d, 0x1c2c2838, 0xedffbff8, 0xc74c6516, 0x14383d8e, 0x2823ef91)
  const V32 := Words(0x73b33bf5, 0xea992a22, 0xa0060b30, 0x363482c9, 0xba591112, 0x0109ab3a, 0xade79437, 0x6112a3b7)
  const V36 := Words(0x65a0cfe4, 0xa9a7738c, 0xfe604df5, 0x98e12507, 0xf4b002d6, 0x085f3833, 0x59249dd3, 0x9cd9f5f6)
  const V40 := Words(0x79ea687a, 0x6dc57a8a, 0x34df1604, 0x41a65cb1, 0x1efbc0a0, 0xf0781bc8, 0xa507a53d, 0x0772a26b)
  const V44 := Words(0x9d4baf93, 0x17aa0dfe, 0xdf46652f, 0xd6670766, 0xfda24c2e, 0xdecd4715, 0x838b2711, 0x26352d63)
  const V48 := Words(0x4172328d, 0xa14c14b0, 0x72ab4b91, 0x26628815, 0xfecf0bc6, 0xd57b94a9, 0xb7755da1, 0xa80f11f0)
  const V52 := Words(0x886e7a22, 0x7a0508a1, 0xf11bfaa8, 0x05757ceb, 0x49231c1e, 0x52f1ccf7, 0x6e5c390c, 0xbd714038)
  const V56 := Words(0x38cc9913, 0x3ec45cdb, 0xf5702fdb, 0x101fd28f, 0x54cb266b, 0xe50e1b4f, 0x9f4787c3, 0x529e7d00)
  const V60 := Words(0xb6ae8fff, 0xffb70472, 0xc062d46f, 0xfcd1887b, 0xb21bad3d, 0x6d83bfc6, 0x7e44008e, 0x9b5e906c)
  const V64 := Words(0x506e3058, 0xd39a2165, 0x04d24d6c, 0xb85e2ce9, 0x5ef50f24, 0xfb121210, 0x948d25b6, 0x961f4894)

  predicate Row(block: Bytes, i: nat, r: seq<Word>)
    requires |block| == BLOCK
  {
    && |r| == 8
    && W(block, 8 * i) == r[0] && W(block, 8 * i + 1) == r[1] && W(block, 8 * i + 2) == r[2] && W(block, 8 * i + 3) == r[3]
    && W(block, 8 * i + 4) == r[4] && W(block, 8 * i + 5) == r[5] && W(block, 8 * i + 6) == r[6] && W(block, 8 * i + 7) == r[7]
  }

  /** The padded message: the text, a one bit, zeros, its 24 bits. */
  lemma OneBlock()
    ensures ABC + Padding(3) == [0x61, 0x62, 0x63, 0x80] + Zeros(59) + [24]
  {
    BeOfSmall(24, 7);
  }

  lemma {:induction false} BeOfSmall(v: Byte, n: nat)
    ensures Be(v, n + 1) == Zeros(n) + [v]
  {
    if n > 0 {
      BeOfSmall(0, n - 1);
    }
  }

  lemma FirstRows(block: Bytes)
    requires block == [0x61, 0x62, 0x63, 0x80] + Zeros(59) + [24]
    ensures |block| == BLOCK && Row(block, 0, W0) && Row(block, 1, W1)
  {
    assert BeWord(0x61, 0x62, 0x63, 0x80) == 0x61626380 && BeWord(0, 0, 0, 0) == 0 && BeWord(0, 0, 0, 24) == 24;
    hide BeWord;
  }

  lemma Row2(block: Bytes)
    requires |block| == BLOCK && Row(block, 0, W0) && Row(block, 1, W1)
    ensures Row(block, 2, W2)
  {
  }

  lemma Row3(block: Bytes)
    requires |block| == BLOCK && Row(block, 1, W1) && Row(block, 2, W2)
    ensures Row(block, 3, W3)
  {
  }

  lemma Row4(block: Bytes)
    requires |block| == BLOCK && Row(block, 2, W2) && Row(block, 3, W3)
    ensures Row(block, 4, W4)
  {
  }

  lemma Row5(block: Bytes)
    requires |block| == BLOCK && Row(block, 3, W3) && Row(block, 4, W4)
    ensures Row(block, 5, W5)
  {
  }

  lemma Row6(block: Bytes)
    requires |block| == BLOCK && Row(block, 4, W4) && Row(block, 5, W5)
    ensures Row(block, 6, W6)
  {
  }

  lemma Row7(block: Bytes)
    requires |block| == BLOCK && Row(block, 5, W5) && Row(block, 6, W6)
    ensures Row(block, 7, W7)
  {
  }

  /** One round, of which only the new `a` and `e` have to be given. */
  lemma Step(block: Bytes, t: nat, v: Words, a: Word, e: Word) returns (u: Words)
    requires |block| == BLOCK && t < 64 && Rounds(H0, block, t) == v
    requires Round(v, K(t), W(block, t)) == Words(a, v.a, v.b, v.c, e, v.e, v.f, v.g)
    ensures u == Words(a, v.a, v.b, v.c, e, v.e, v.f, v.g) && Rounds(H0, block, t + 1) == u
  {
    hide Round, K, W;
    u := Words(a, v.a, v.b, v.c, e, v.e, v.f, v.g);
  }

  lemma Rounds8(block: Bytes)
    requires |block| == BLOCK && Row(block, 0, W0)
    ensures Rounds(H0, block, 8) == V8
  {
    assert Rounds(H0, block, 0) == H0;
    hide W, Rounds;
    assert Rounds(H0, block, 4) == V4 by {
      var v := Step(block, 0, H0, 0x5d6aebcd, 0xfa2a4622);
      v := Step(block, 1, v, 0x5a6ad9ad, 0x78ce7989);
      v := Step(block, 2, v, 0xc8c347a7, 0xf92939eb);
      v := Step(block, 3, v, 0xd550f666, 0x24e00850);
    }
    assert Rounds(H0, block, 8) == V8 by {
      var v := Step(block, 4, V4, 0x04409a6a, 0x43ada245);
      v := Step(block, 5, v, 0x2b4209f5, 0x714260ad);
      v := Step(block, 6, v, 0xe5030380, 0x9b27a401);
      v := Step(block, 7, v, 0x85a07b5f, 0x0c657a79);
    }
  }

  lemma Rounds16(block: Bytes)
    requires |block| == BLOCK && Row(block, 1, W1) && Rounds(H0, block, 8) == V8
    ensures Rounds(H0, block, 16) == V16
  {
    hide W, Rounds;
    assert Rounds(H0, block, 12) == V12 by {
      var v := Step(block, 8, V8, 0x8e04ecb9, 0x32ca2d8c);
      v := Step(block, 9, v, 0x8c87346b, 0x1cc92596);
      v := Step(block, 10, v, 0x4798a3f4, 0x436b23e8);
      v := Step(block, 11, v, 0xf71fc5a9, 0x816fd6e9);
    }
    assert Rounds(H0, block, 16) == V16 by {
      var v := Step(block, 12, V12, 0x87912990, 0x1e578218);
      v := Step(block, 13, v, 0xd932eb16, 0x745a48de);
      v := Step(block, 14, v, 0xc0645fde, 0x0b92f20c);
      v := Step(block, 15, v, 0xb0fa238e, 0x07590dcd);
    }
  }

  lemma Rounds24(block: Bytes)
    requires |block| == BLOCK && Row(block, 2, W2) && Rounds(H0, block, 16) == V16
    ensures Rounds(H0, block, 24) == V24
  {
    hide W, Rounds;
    assert Rounds(H0, block, 20) == V20 by {
      var v := Step(block, 16, V16, 0x21da9a9b, 0x8034229c);
      v := Step(block, 17, v, 0xc2fbd9d1, 0x846ee454);
      v := Step(block, 18, v, 0xfe777bbf, 0xcc899961);
      v := Step(block, 19, v, 0xe1f20c33, 0xb0638179);
    }
    assert Rounds(H0, block, 24) == V24 by {
      var v := Step(block, 20, V20, 0x9dc68b63, 0x8ada8930);
      v := Step(block, 21, v, 0xc2606d6d, 0xe1257970);
      v := Step(block, 22, v, 0xa7a3623f, 0x49f5114a);
      v := Step(block, 23, v, 0xc5d53d8d, 0xaa47c347);
    }
  }

  lemma Rounds32(block: Bytes)
    requires |block| == BLOCK && Row(block, 3, W3) && Rounds(H0, block, 24) == V24
    ensures Rounds(H0, block, 32) == V32
  {
    hide W, Rounds;
    assert Rounds(H0, block, 28) == V28 by {
      var v := Step(block, 24, V24, 0x1c2c2838, 0x2823ef91);
      v := Step(block, 25, v, 0xcde8037d, 0x14383d8e);
      v := Step(block, 26, v, 0xb62ec4bc, 0xc74c6516);
      v := Step(block, 27, v, 0x77d37528, 0xedffbff8);
    }
    assert Rounds(H0, block, 32) == V32 by {
      var v := Step(block, 28, V28, 0x363482c9, 0x6112a3b7);
      v := Step(block, 29, v, 0xa0060b30, 0xade79437);
      v := Step(block, 30, v, 0xea992a22, 0x0109ab3a);
      v := Step(block, 31, v, 0x73b33bf5, 0xba591112);
    }
  }

  lemma Rounds40(block: Bytes)
    requires |block| == BLOCK && Row(block, 4, W4) && Rounds(H0, block, 32) == V32
    ensures Rounds(H0, block, 40) == V40
  {
    hide W, Rounds;
    assert Rounds(H0, block, 36) == V36 by {
      var v := Step(block, 32, V32, 0x98e12507, 0x9cd9f5f6);
      v := Step(block, 33, v, 0xfe604df5, 0x59249dd3);
      v := Step(block, 34, v, 0xa9a7738c, 0x085f3833);
      v := Step(block, 35, v, 0x65a0cfe4, 0xf4b002d6);
    }
    assert Rounds(H0, block, 40) == V40 by {
      var v := Step(block, 36, V36, 0x41a65cb1, 0x0772a26b);
      v := Step(block, 37, v, 0x34df1604, 0xa507a53d);
      v := Step(block, 38, v, 0x6dc57a8a, 0xf0781bc8);
      v := Step(block, 39, v, 0x79ea687a, 0x1efbc0a0);
    }
  }

  lemma Rounds48(block: Bytes)
    requires |block| == BLOCK && Row(block, 5, W5) && Rounds(H0, block, 40) == V40
    ensures Rounds(H0, block, 48) == V48
  {
    hide W, Rounds;
    assert Rounds(H0, block, 44) == V44 by {
      var v := Step(block, 40, V40, 0xd6670766, 0x26352d63);
      v := Step(block, 41, v, 0xdf46652f, 0x838b2711);
      v := Step(block, 42, v, 0x17aa0dfe, 0xdecd4715);
      v := Step(block, 43, v, 0x9d4baf93, 0xfda24c2e);
    }
    assert Rounds(H0, block, 48) == V48 by {
      var v := Step(block, 44, V44, 0x26628815, 0xa80f11f0);
      v := Step(block, 45, v, 0x72ab4b91, 0xb7755da1);
      v := Step(block, 46, v, 0xa14c14b0, 0xd57b94a9);
      v := Step(block, 47, v, 0x4172328d, 0xfecf0bc6);
    }
  }

  lemma Rounds56(block: Bytes)
    requires |block| == BLOCK && Row(block, 6, W6) && Rounds(H0, block, 48) == V48
    ensures Rounds(H0, block, 56) == V56
  {
    hide W, Rounds;
    assert Rounds(H0, block, 52) == V52 by {
      var v := Step(block, 48, V48, 0x05757ceb, 0xbd714038);
      v := Step(block, 49, v, 0xf11bfaa8, 0x6e5c390c);
      v := Step(block, 50, v, 0x7a0508a1, 0x52f1ccf7);
      v := Step(block, 51, v, 0x886e7a22, 0x49231c1e);
    }
    assert Rounds(H0, block, 56) == V56 by {
      var v := Step(block, 52, V52, 0x101fd28f, 0x529e7d00);
      v := Step(block, 53, v, 0xf5702fdb, 0x9f4787c3);
      v := Step(block, 54, v, 0x3ec45cdb, 0xe50e1b4f);
      v := Step(block, 55, v, 0x38cc9913, 0x54cb266b);
    }
  }

  lemma Rounds64(block: Bytes)
    requires |block| == BLOCK && Row(block, 7, W7) && Rounds(H0, block, 56) == V56
    ensures Rounds(H0, block, 64) == V64
  {
    hide W, Rounds;
    assert Rounds(H0, block, 60) == V60 by {
      var v := Step(block, 56, V56, 0xfcd1887b, 0x9b5e906c);
      v := Step(block, 57, v, 0xc062d46f, 0x7e44008e);
      v := Step(block, 58, v, 0xffb70472, 0x6d83bfc6);
      v := Step(block, 59, v, 0xb6ae8fff, 0xb21bad3d);
    }
    assert Rounds(H0, block, 64) == V64 by {
      var v := Step(block, 60, V60, 0xb85e2ce9, 0x961f4894);
      v := Step(block, 61, v, 0x04d24d6c, 0x948d25b6);
      v := Step(block, 62, v, 0xd39a2165, 0xfb121210);
      v := Step(block, 63, v, 0x506e3058, 0x5ef50f24);
    }
  }

  lemma Compressed(block: Bytes)
    requires block == [0x61, 0x62, 0x63, 0x80] + Zeros(59) + [24]
    ensures Rounds(H0, block, 64) == V64
  {
    FirstRows(block);
    hide *;
    Row2(block);
    Row3(block);
    Row4(block);
    Row5(block);
    Row6(block);
    Row7(block);
    Rounds8(block);
    Rounds16(block);
    Rounds24(block);
    Rounds32(block);
    Rounds40(block);
    Rounds48(block);
    Rounds56(block);
    Rounds64(block);
  }

  lemma Written()
    ensures Output(Plus(H0, V64)) == DIGEST
  {
    var v := Words(0xba7816bf, 0x8f01cfea, 0x414140de, 0x5dae2223, 0xb00361a3, 0x96177a9c, 0xb410ff61, 0xf20015ad);
    assert Plus(H0, V64) == v;
    assert WordBytes(v.a) == [0xba, 0x78, 0x16, 0xbf] && WordBytes(v.b) == [0x8f, 0x01, 0xcf, 0xea];
    assert WordBytes(v.c) == [0x41, 0x41, 0x40, 0xde] && WordBytes(v.d) == [0x5d, 0xae, 0x22, 0x23];
    assert WordBytes(v.e) == [0xb0, 0x03, 0x61, 0xa3] && WordBytes(v.f) == [0x96, 0x17, 0x7a, 0x9c];
    assert WordBytes(v.g) == [0xb4, 0x10, 0xff, 0x61] && WordBytes(v.h) == [0xf2, 0x00, 0x15, 0xad];
  }

  /** SHA-256("abc"). */
  lemma ShaOfAbc()
    ensures Sha(ABC) == DIGEST
  {
    var block := [0x61, 0x62, 0x63, 0x80] + Zeros(59) + [24];
    OneBlock();
    Compressed(block);
    Written();
    hide Rounds, Output, Plus;
    FoldBlock(Compress, H0, block, BLOCK);
    assert block[..BLOCK] == block && block[BLOCK..] == [];
  }
}
