/** A published XXH64 value for 63 bytes of text, worked through the specification. The length takes
    every path: a stripe, three eights, a four and three single bytes. It pins the primes, the
    rotations, the lane order and the byte order of the hash. */
module Xxh64Example {
  import opened Bits
  import opened Bytes
  import opened BlockStream
  import opened Xxh64

  // "Call me Ishmael. Some years ago--never mind how long precisely-"

  const E0: Bytes := [0x43, 0x61, 0x6c, 0x6c, 0x20, 0x6d, 0x65, 0x20]
  const E1: Bytes := [0x49, 0x73, 0x68, 0x6d, 0x61, 0x65, 0x6c, 0x2e]
  const E2: Bytes := [0x20, 0x53, 0x6f, 0x6d, 0x65, 0x20, 0x79, 0x65]
  const E3: Bytes := [0x61, 0x72, 0x73, 0x20, 0x61, 0x67, 0x6f, 0x2d]
  const E4: Bytes := [0x2d, 0x6e, 0x65, 0x76, 0x65, 0x72, 0x20, 0x6d]
  const E5: Bytes := [0x69, 0x6e, 0x64, 0x20, 0x68, 0x6f, 0x77, 0x20]
  const E6: Bytes := [0x6c, 0x6f, 0x6e, 0x67, 0x20, 0x70, 0x72, 0x65]
  const F: Bytes := [0x63, 0x69, 0x73, 0x65]
  const ONES: Bytes := [0x6c, 0x79, 0x2d]

  const REST: Bytes := E4 + (E5 + (E6 + (F + ONES)))
  const TEXT: Bytes := E0 + (E1 + (E2 + (E3 + REST)))

  // The lanes after the stripe, and what the tail starts from

  const LANES := Lanes(0x670B8618B3AA2200, 0xFC3FF3C0203BC028, 0x9677E9E66681D852, 0xDA7D9AAFD0C02036)
  const H: Word := 0xB89F94801D165F69

  lemma FirstWords()
    ensures LeEight(E0) == 0x20656D206C6C6143
    ensures LeEight(E1) == 0x2E6C65616D687349
    ensures LeEight(E2) == 0x657920656D6F5320
    ensures LeEight(E3) == 0x2D6F676120737261
  {
    assert E0[4..] == [0x20, 0x6d, 0x65, 0x20];
    assert E1[4..] == [0x61, 0x65, 0x6c, 0x2e];
    assert E2[4..] == [0x65, 0x20, 0x79, 0x65];
    assert E3[4..] == [0x61, 0x67, 0x6f, 0x2d];
  }

  lemma LastWords()
    ensures LeEight(E4) == 0x6D20726576656E2D
    ensures LeEight(E5) == 0x20776F6820646E69
    ensures LeEight(E6) == 0x65727020676E6F6C
    ensures LeFour(F) == 0x0000000065736963
    ensures Widen(ONES[0]) == 0x000000000000006C && Widen(ONES[1]) == 0x0000000000000079 && Widen(ONES[2]) == 0x000000000000002D
  {
    assert E4[4..] == [0x65, 0x72, 0x20, 0x6d];
    assert E5[4..] == [0x68, 0x6f, 0x77, 0x20];
    assert E6[4..] == [0x20, 0x70, 0x72, 0x65];
  }

  lemma PrefixFour(s: Bytes, e: Bytes)
    requires 4 <= |e| && e <= s
    ensures LeFour(s) == LeFour(e)
  {
    hide Widen;
    assert s[0] == e[0] && s[1] == e[1] && s[2] == e[2] && s[3] == e[3];
  }

  /** Only the first eight bytes matter. */
  lemma PrefixEight(s: Bytes, e: Bytes)
    requires 8 <= |e| && e <= s
    ensures LeEight(s) == LeEight(e)
  {
    PrefixFour(s, e);
    PrefixFour(s[4..], e[4..]);
    hide LeFour, Join;
  }

  lemma FirstRounds()
    ensures Start(0) == Lanes(0x60EA27EEADC0B5D6, 0xC2B2AE3D27D4EB4F, 0, 0x61C8864E7A143579)
    ensures Round(0x60EA27EEADC0B5D6, 0x20656D206C6C6143) == 0x670B8618B3AA2200
    ensures Round(0xC2B2AE3D27D4EB4F, 0x2E6C65616D687349) == 0xFC3FF3C0203BC028
    ensures Round(0, 0x657920656D6F5320) == 0x9677E9E66681D852
    ensures Round(0x61C8864E7A143579, 0x2D6F676120737261) == 0xDA7D9AAFD0C02036
  {
  }

  lemma Striped()
    ensures Stripe(Start(0), TEXT[..STRIPE]) == LANES
  {
    hide Start, LeEight, Round;
    var block := TEXT[..STRIPE];
    PrefixEight(block, E0);
    PrefixEight(block[8..], E1);
    PrefixEight(block[16..], E2);
    PrefixEight(block[24..], E3);
    FirstRounds();
    FirstWords();
  }

  lemma Converged()
    ensures AddLength(Converge(LANES), 63) == H
  {
    assert Rotl(LANES.v1, 1) + Rotl(LANES.v2, 7) + Rotl(LANES.v3, 12) + Rotl(LANES.v4, 18) == 0xD76E95AA2394EBDB;
    assert MergeRound(0xD76E95AA2394EBDB, 0x670B8618B3AA2200) == 0xD9CECBCFAB49C481;
    assert MergeRound(0xD9CECBCFAB49C481, 0xFC3FF3C0203BC028) == 0x6EE1A8BEE73B84E1;
    assert MergeRound(0x6EE1A8BEE73B84E1, 0x9677E9E66681D852) == 0x96B73AAB55D70966;
    assert MergeRound(0x96B73AAB55D70966, 0xDA7D9AAFD0C02036) == 0xB89F94801D165F2A;
  }

  lemma LastRounds()
    ensures MixEight(0xB89F94801D165F69, 0x6D20726576656E2D) == 0x0C718C0CF5EC8337
    ensures MixEight(0x0C718C0CF5EC8337, 0x20776F6820646E69) == 0xDDA50D5890EEF8D0
    ensures MixEight(0xDDA50D5890EEF8D0, 0x65727020676E6F6C) == 0xE2E40EBEA20F90FF
    ensures MixFour(0xE2E40EBEA20F90FF, 0x0000000065736963) == 0x2BCA5F8585968679
    ensures MixOne(0x2BCA5F8585968679, 0x000000000000006C) == 0x165849E44031C250
    ensures MixOne(0x165849E44031C250, 0x0000000000000079) == 0x9669659C916E30C9
    ensures MixOne(0x9669659C916E30C9, 0x000000000000002D) == 0x7166E938EA5418D0
    ensures Avalanche(0x7166E938EA5418D0) == 0x02A2E85470D6FD96
  {
  }

  lemma FinishedOnes()
    ensures FinalizeBytes(0x2BCA5F8585968679, ONES) == 0x02A2E85470D6FD96
  {
    hide MixOne, Avalanche, Widen;
    LastRounds();
    LastWords();
    assert ONES[1..] == [ONES[1], ONES[2]] && ONES[1..][1..] == [ONES[2]] && ONES[1..][1..][1..] == [];
  }

  lemma Finished()
    ensures Finalize(H, REST) == 0x02A2E85470D6FD96
  {
    hide MixEight, MixFour, FinalizeBytes, LeEight, LeFour;
    LastRounds();
    LastWords();
    var r1 := REST[8..];
    var r2 := r1[8..];
    var r3 := r2[8..];
    PrefixEight(REST, E4);
    PrefixEight(r1, E5);
    PrefixEight(r2, E6);
    PrefixFour(r3, F);
    assert r3[4..] == ONES;
    FinishedOnes();
    assert Finalize(H, REST) == Finalize(0x0C718C0CF5EC8337, r1);
    assert Finalize(0x0C718C0CF5EC8337, r1) == Finalize(0xDDA50D5890EEF8D0, r2);
    assert Finalize(0xDDA50D5890EEF8D0, r2) == Finalize(0xE2E40EBEA20F90FF, r3);
    assert Finalize(0xE2E40EBEA20F90FF, r3) == FinalizeBytes(0x2BCA5F8585968679, ONES);
  }

  lemma HashOfText()
    ensures |TEXT| == 63 && Hash(TEXT, 0) == 0x02A2E85470D6FD96
  {
    Striped();
    Converged();
    Finished();
    hide Stripe, Start, Converge, AddLength, Finalize;
    FoldBlock(Stripe, Start(0), TEXT, STRIPE);
    assert TEXT[STRIPE..] == REST;
  }
}
