/** Values of XXH64 and XXH32 (src/xxhash.c:234-424), computed step by step.  Every loop and every constant of
    the two has a part in them: one or two stripes, words, a half word, bytes, the length, and the seed 7. */
module KnownHashes {
  import opened StreamHash
  import opened XXHash

  /** The first stripe is consumed first. */
  lemma OneStripe<Acc, H>(a: Algorithm<Acc, H>, acc: Acc, s: seq<byte>, t: seq<byte>)
    requires a.Valid() && |s| == a.stripe
    ensures a.ConsumeAll(acc, s + t) == a.ConsumeAll(a.consume(acc, s), t) && a.Rest(s + t) == a.Rest(t)
  {
    assert (s + t)[..a.stripe] == s && (s + t)[a.stripe..] == t;
  }

  lemma OneWord<Acc, H>(a: Algorithm<Acc, H>, h: H, s: seq<byte>, t: seq<byte>)
    requires a.Valid() && |s| == a.word
    ensures a.Words(h, s + t) == a.Words(a.wordStep(h, s), t)
  {
    assert (s + t)[..a.word] == s && (s + t)[a.word..] == t;
  }

  lemma HalfWord<Acc, H>(a: Algorithm<Acc, H>, h: H, s: seq<byte>, t: seq<byte>)
    requires a.Valid() && |s| == a.halfWord > 0 && |s + t| < a.word
    ensures a.Words(h, s + t) == a.Bytes(a.halfStep(h, s), t)
  {
    assert (s + t)[..a.halfWord] == s && (s + t)[a.halfWord..] == t;
  }

  lemma ThreeBytes<Acc, H>(a: Algorithm<Acc, H>, h: H, x: byte, y: byte, z: byte)
    ensures a.Bytes(h, [x, y, z]) == a.byteStep(a.byteStep(a.byteStep(h, x), y), z)
  {
    assert [x, y, z][1..] == [y, z] && [y, z][1..] == [z] && [z][1..] == [];
    var h1 := a.byteStep(h, x);
    var h2 := a.byteStep(h1, y);
    assert a.Bytes(a.byteStep(h2, z), []) == a.byteStep(h2, z);
    assert a.Bytes(h2, [z]) == a.byteStep(h2, z);
    assert a.Bytes(h1, [y, z]) == a.Bytes(h2, [z]);
  }

  lemma HashBy<Acc, H>(a: Algorithm<Acc, H>, s: seq<byte>, acc: Acc, h1: H, h2: H, rest: seq<byte>, h3: H)
    requires a.Valid() && |s| >= a.stripe && a.ConsumeAll(a.start, s) == acc && a.Rest(s) == rest
    requires a.converge(acc) == h1 && a.addLength(h1, |s|) == h2 && a.Words(h2, rest) == h3
    ensures a.Hash(s) == a.avalanche(h3)
  {}

  lemma ShortBy<Acc, H>(a: Algorithm<Acc, H>, s: seq<byte>, h2: H, h3: H)
    requires a.Valid() && |s| < a.stripe && |s| < a.word && (a.halfWord > 0 ==> |s| < a.halfWord)
    requires a.addLength(a.short, |s|) == h2 && a.Rest(s) == s && a.Bytes(h2, s) == h3
    ensures a.Hash(s) == a.avalanche(h3)
  {}

  const S1: seq<byte> := [1, 2, 3, 4, 5, 6, 7, 8, 9, 10, 11, 12, 13, 14, 15, 16]
  const S2: seq<byte> := [17, 18, 19, 20, 21, 22, 23, 24, 25, 26, 27, 28, 29, 30, 31, 32]
  const W1: seq<byte> := [33, 34, 35, 36]
  const W2: seq<byte> := [37, 38, 39, 40]
  const W3: seq<byte> := [41, 42, 43, 44]
  const B: seq<byte> := [45, 46, 47]

  /** The bytes from 1 to 47. */
  const INPUT: seq<byte> := S1 + S2 + W1 + W2 + W3 + B

  // ---------- XXH64 ----------

  const LANES64 :=
    Acc64(0xd8bf_c2b0_51f3_b82f, 0xa7dd_d2aa_314b_7ef7, 0xaf31_4760_da29_aed5, 0x7e4f_575a_b981_759d)

  lemma Reads64()
    ensures Read64(S1 + S2, 0) == 0x0807_0605_0403_0201 && Read64(S1 + S2, 8) == 0x100f_0e0d_0c0b_0a09
    ensures Read64(S1 + S2, 16) == 0x1817_1615_1413_1211 && Read64(S1 + S2, 24) == 0x201f_1e1d_1c1b_1a19
  {}

  lemma Rounds64()
    ensures Round64(7 + PRIME64_1 + PRIME64_2, 0x0807_0605_0403_0201) == 0xd8bf_c2b0_51f3_b82f
    ensures Round64(7 + PRIME64_2, 0x100f_0e0d_0c0b_0a09) == 0xa7dd_d2aa_314b_7ef7
    ensures Round64(7, 0x1817_1615_1413_1211) == 0xaf31_4760_da29_aed5
    ensures Round64(7 - PRIME64_1, 0x201f_1e1d_1c1b_1a19) == 0x7e4f_575a_b981_759d
  {}

  lemma Converged64()
    ensures Converge64(LANES64) == 0xc87a_7dff_cf15_f065
  {}

  lemma Words64()
    ensures Word64(0xc87a_7dff_cf15_f065 + 47, W1 + W2) == 0x27a0_8b91_1d8f_bbb2
    ensures Half64(0x27a0_8b91_1d8f_bbb2, W3) == 0x2dfe_95c7_b415_2ca5
  {}

  lemma Bytes64()
    ensures Byte64(Byte64(Byte64(0x2dfe_95c7_b415_2ca5, 45), 46), 47) == 0xff6a_c4a9_d542_b408
    ensures Avalanche64(0xff6a_c4a9_d542_b408) == 0x7214_7830_5062_7a32
  {
    assert Byte64(0x2dfe_95c7_b415_2ca5, 45) == 0xc9ea_800f_944c_d7f4;
    assert Byte64(0xc9ea_800f_944c_d7f4, 46) == 0xe70e_a72e_bc7a_e9db;
  }

  lemma Front64()
    ensures XXH64(7).ConsumeAll(XXH64(7).start, INPUT) == LANES64
    ensures XXH64(7).Rest(INPUT) == W1 + W2 + W3 + B
  {
    var a, rest := XXH64(7), W1 + W2 + W3 + B;
    assert INPUT == S1 + S2 + rest;
    OneStripe(a, a.start, S1 + S2, rest);
    Reads64();
    Rounds64();
  }

  lemma Tail64()
    ensures XXH64(7).Words(0xc87a_7dff_cf15_f065 + 47, W1 + W2 + W3 + B) == 0xff6a_c4a9_d542_b408
  {
    var a := XXH64(7);
    assert W1 + W2 + W3 + B == (W1 + W2) + (W3 + B);
    OneWord(a, 0xc87a_7dff_cf15_f065 + 47, W1 + W2, W3 + B);
    HalfWord(a, 0x27a0_8b91_1d8f_bbb2, W3, B);
    ThreeBytes(a, 0x2dfe_95c7_b415_2ca5, 45, 46, 47);
    Words64();
    Bytes64();
  }

  lemma Length64()
    ensures |INPUT| == 47 && XXH64(7).addLength(0xc87a_7dff_cf15_f065, |INPUT|) == 0xc87a_7dff_cf15_f065 + 47
  {
    assert 47 % 0x1_0000_0000_0000_0000 == 47;
  }

  lemma Converge64Is()
    ensures XXH64(7).converge(LANES64) == 0xc87a_7dff_cf15_f065
  {
    Converged64();
  }

  lemma Avalanche64Is()
    ensures XXH64(7).avalanche(0xff6a_c4a9_d542_b408) == 0x7214_7830_5062_7a32
  {
    assert XXH64(7).avalanche == Avalanche64;
  }

  /** XXH64 of the bytes from 1 to 47. */
  lemma KnownHash64()
    ensures XXH64(7).Hash(INPUT) == 0x7214_7830_5062_7a32
  {
    Front64();
    Converge64Is();
    Length64();
    Tail64();
    Avalanche64Is();
    HashBy(XXH64(7), INPUT, LANES64, 0xc87a_7dff_cf15_f065, 0xc87a_7dff_cf15_f065 + 47, W1 + W2 + W3 + B, 0xff6a_c4a9_d542_b408);
  }

  lemma ShortSteps64()
    ensures Byte64(Byte64(Byte64(7 + PRIME64_5 + 3, 45), 46), 47) == 0x39f2_5746_eb25_ff53
    ensures Avalanche64(0x39f2_5746_eb25_ff53) == 0xdb8c_a0f1_d55a_e6d9
  {
    assert Byte64(7 + PRIME64_5 + 3, 45) == 0x2e53_b4cd_48d9_d92b;
    assert Byte64(0x2e53_b4cd_48d9_d92b, 46) == 0x2aac_82e2_0eaa_d150;
  }

  lemma ShortParts64()
    ensures XXH64(7).addLength(XXH64(7).short, |B|) == 7 + PRIME64_5 + 3 && XXH64(7).Rest(B) == B
    ensures XXH64(7).avalanche(0x39f2_5746_eb25_ff53) == 0xdb8c_a0f1_d55a_e6d9
  {
    assert 3 % 0x1_0000_0000_0000_0000 == 3;
    assert XXH64(7).avalanche == Avalanche64;
    ShortSteps64();
  }

  /** XXH64 of three bytes. */
  lemma ShortHash64()
    ensures XXH64(7).Hash(B) == 0xdb8c_a0f1_d55a_e6d9
  {
    ShortParts64();
    ShortSteps64();
    ThreeBytes(XXH64(7), 7 + PRIME64_5 + 3, 45, 46, 47);
    ShortBy(XXH64(7), B, 7 + PRIME64_5 + 3, 0x39f2_5746_eb25_ff53);
  }

  // ---------- XXH32 ----------

  const LANES32 := Acc32(0xa63c_7a64, 0xbe50_c625, 0x69e9_6f87, 0x877b_76df)

  lemma Stripes32()
    ensures Consume32(XXH32(7).start, S1) == Acc32(0xe16b_2f51, 0x4d3e_6a70, 0x3096_9979, 0x3aa1_4e49)
    ensures Consume32(Acc32(0xe16b_2f51, 0x4d3e_6a70, 0x3096_9979, 0x3aa1_4e49), S2) == LANES32
    ensures Converge32(LANES32) == 0xe752_9c33
  {}

  lemma Words32()
    ensures Word32(Word32(Word32(0xe752_9c33 + 47, W1), W2), W3) == 0xfaf7_2530
  {
    assert Word32(0xe752_9c33 + 47, W1) == 0x65bd_5094;
    assert Word32(0x65bd_5094, W2) == 0x5175_7abf;
  }

  lemma Bytes32()
    ensures Byte32(Byte32(Byte32(0xfaf7_2530, 45), 46), 47) == 0xf439_8f2a
    ensures Avalanche32(0xf439_8f2a) == 0x1f9c_600d
  {
    assert Byte32(0xfaf7_2530, 45) == 0x2ab3_a4f1;
    assert Byte32(0x2ab3_a4f1, 46) == 0x2f7e_e021;
  }

  lemma Front32()
    ensures XXH32(7).ConsumeAll(XXH32(7).start, INPUT) == LANES32
    ensures XXH32(7).Rest(INPUT) == W1 + W2 + W3 + B
  {
    var a, rest := XXH32(7), W1 + W2 + W3 + B;
    assert INPUT == S1 + (S2 + rest);
    OneStripe(a, a.start, S1, S2 + rest);
    OneStripe(a, a.consume(a.start, S1), S2, rest);
    Stripes32();
  }

  lemma Tail32()
    ensures XXH32(7).Words(0xe752_9c33 + 47, W1 + W2 + W3 + B) == 0xf439_8f2a
  {
    var a := XXH32(7);
    var h1 := Word32(0xe752_9c33 + 47, W1);
    var h2 := Word32(h1, W2);
    assert W1 + W2 + W3 + B == W1 + (W2 + (W3 + B));
    OneWord(a, 0xe752_9c33 + 47, W1, W2 + (W3 + B));
    OneWord(a, h1, W2, W3 + B);
    OneWord(a, h2, W3, B);
    ThreeBytes(a, 0xfaf7_2530, 45, 46, 47);
    Words32();
    Bytes32();
  }

  lemma Length32()
    ensures |INPUT| == 47 && XXH32(7).addLength(0xe752_9c33, |INPUT|) == 0xe752_9c33 + 47
  {
    assert 47 % 0x1_0000_0000 == 47;
  }

  lemma Converge32Is()
    ensures XXH32(7).converge(LANES32) == 0xe752_9c33
  {
    Stripes32();
  }

  lemma Avalanche32Is()
    ensures XXH32(7).avalanche(0xf439_8f2a) == 0x1f9c_600d
  {
    assert XXH32(7).avalanche == Avalanche32;
  }

  /** XXH32 of the same. */
  lemma KnownHash32()
    ensures XXH32(7).Hash(INPUT) == 0x1f9c_600d
  {
    Front32();
    Converge32Is();
    Length32();
    Tail32();
    Avalanche32Is();
    HashBy(XXH32(7), INPUT, LANES32, 0xe752_9c33, 0xe752_9c33 + 47, W1 + W2 + W3 + B, 0xf439_8f2a);
  }

  lemma ShortSteps32()
    ensures Byte32(Byte32(Byte32(7 + PRIME32_5 + 3, 45), 46), 47) == 0x1300_4062
    ensures Avalanche32(0x1300_4062) == 0x9e04_c351
  {
    assert Byte32(7 + PRIME32_5 + 3, 45) == 0x3604_0f5c;
    assert Byte32(0x3604_0f5c, 46) == 0x866e_fa0c;
  }

  lemma ShortParts32()
    ensures XXH32(7).addLength(XXH32(7).short, |B|) == 7 + PRIME32_5 + 3 && XXH32(7).Rest(B) == B
    ensures XXH32(7).avalanche(0x1300_4062) == 0x9e04_c351
  {
    assert 3 % 0x1_0000_0000 == 3;
    assert XXH32(7).avalanche == Avalanche32;
    ShortSteps32();
  }

  /** XXH32 of three bytes. */
  lemma ShortHash32()
    ensures XXH32(7).Hash(B) == 0x9e04_c351
  {
    ShortParts32();
    ShortSteps32();
    ThreeBytes(XXH32(7), 7 + PRIME32_5 + 3, 45, 46, 47);
    ShortBy(XXH32(7), B, 7 + PRIME32_5 + 3, 0x1300_4062);
  }
}
