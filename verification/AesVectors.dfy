/**
 * The worked examples of FIPS 197: the expansion of the key of appendix A.1, and the encryption of appendix B,
 * through the states it lists at the start of each round and after ShiftRows.
 */
module AesVectors {
  import opened AesColumns
  import opened AesBlock
  import opened AesKeys
  import opened AesGrids

  // ---------- Appendix A.1: the round keys ----------

  const K0 := Grid(Column(0x2b, 0x7e, 0x15, 0x16), Column(0x28, 0xae, 0xd2, 0xa6),
                   Column(0xab, 0xf7, 0x15, 0x88), Column(0x09, 0xcf, 0x4f, 0x3c))
  const K1 := Grid(Column(0xa0, 0xfa, 0xfe, 0x17), Column(0x88, 0x54, 0x2c, 0xb1),
                   Column(0x23, 0xa3, 0x39, 0x39), Column(0x2a, 0x6c, 0x76, 0x05))
  const K2 := Grid(Column(0xf2, 0xc2, 0x95, 0xf2), Column(0x7a, 0x96, 0xb9, 0x43),
                   Column(0x59, 0x35, 0x80, 0x7a), Column(0x73, 0x59, 0xf6, 0x7f))
  const K3 := Grid(Column(0x3d, 0x80, 0x47, 0x7d), Column(0x47, 0x16, 0xfe, 0x3e),
                   Column(0x1e, 0x23, 0x7e, 0x44), Column(0x6d, 0x7a, 0x88, 0x3b))
  const K4 := Grid(Column(0xef, 0x44, 0xa5, 0x41), Column(0xa8, 0x52, 0x5b, 0x7f),
                   Column(0xb6, 0x71, 0x25, 0x3b), Column(0xdb, 0x0b, 0xad, 0x00))
  const K5 := Grid(Column(0xd4, 0xd1, 0xc6, 0xf8), Column(0x7c, 0x83, 0x9d, 0x87),
                   Column(0xca, 0xf2, 0xb8, 0xbc), Column(0x11, 0xf9, 0x15, 0xbc))
  const K6 := Grid(Column(0x6d, 0x88, 0xa3, 0x7a), Column(0x11, 0x0b, 0x3e, 0xfd),
                   Column(0xdb, 0xf9, 0x86, 0x41), Column(0xca, 0x00, 0x93, 0xfd))
  const K7 := Grid(Column(0x4e, 0x54, 0xf7, 0x0e), Column(0x5f, 0x5f, 0xc9, 0xf3),
                   Column(0x84, 0xa6, 0x4f, 0xb2), Column(0x4e, 0xa6, 0xdc, 0x4f))
  const K8 := Grid(Column(0xea, 0xd2, 0x73, 0x21), Column(0xb5, 0x8d, 0xba, 0xd2),
                   Column(0x31, 0x2b, 0xf5, 0x60), Column(0x7f, 0x8d, 0x29, 0x2f))
  const K9 := Grid(Column(0xac, 0x77, 0x66, 0xf3), Column(0x19, 0xfa, 0xdc, 0x21),
                   Column(0x28, 0xd1, 0x29, 0x41), Column(0x57, 0x5c, 0x00, 0x6e))
  const K10 := Grid(Column(0xd0, 0x14, 0xf9, 0xa8), Column(0xc9, 0xee, 0x25, 0x89),
                    Column(0xe1, 0x3f, 0x0c, 0xc8), Column(0xb6, 0x63, 0x0c, 0xa6))

  lemma Word1() ensures Becomes(Column(0xcf, 0x4f, 0x3c, 0x09), Column(0x8a, 0x84, 0xeb, 0x01))
  { LookedUp(0xcf, 0x4f, 0x3c, 0x09, Column(0x8a, 0x84, 0xeb, 0x01)); }
  lemma Word2() ensures Becomes(Column(0x6c, 0x76, 0x05, 0x2a), Column(0x50, 0x38, 0x6b, 0xe5))
  { LookedUp(0x6c, 0x76, 0x05, 0x2a, Column(0x50, 0x38, 0x6b, 0xe5)); }
  lemma Word3() ensures Becomes(Column(0x59, 0xf6, 0x7f, 0x73), Column(0xcb, 0x42, 0xd2, 0x8f))
  { LookedUp(0x59, 0xf6, 0x7f, 0x73, Column(0xcb, 0x42, 0xd2, 0x8f)); }
  lemma Word4() ensures Becomes(Column(0x7a, 0x88, 0x3b, 0x6d), Column(0xda, 0xc4, 0xe2, 0x3c))
  { LookedUp(0x7a, 0x88, 0x3b, 0x6d, Column(0xda, 0xc4, 0xe2, 0x3c)); }
  lemma Word5() ensures Becomes(Column(0x0b, 0xad, 0x00, 0xdb), Column(0x2b, 0x95, 0x63, 0xb9))
  { LookedUp(0x0b, 0xad, 0x00, 0xdb, Column(0x2b, 0x95, 0x63, 0xb9)); }
  lemma Word6() ensures Becomes(Column(0xf9, 0x15, 0xbc, 0x11), Column(0x99, 0x59, 0x65, 0x82))
  { LookedUp(0xf9, 0x15, 0xbc, 0x11, Column(0x99, 0x59, 0x65, 0x82)); }
  lemma Word7() ensures Becomes(Column(0x00, 0x93, 0xfd, 0xca), Column(0x63, 0xdc, 0x54, 0x74))
  { LookedUp(0x00, 0x93, 0xfd, 0xca, Column(0x63, 0xdc, 0x54, 0x74)); }
  lemma Word8() ensures Becomes(Column(0xa6, 0xdc, 0x4f, 0x4e), Column(0x24, 0x86, 0x84, 0x2f))
  { LookedUp(0xa6, 0xdc, 0x4f, 0x4e, Column(0x24, 0x86, 0x84, 0x2f)); }
  lemma Word9() ensures Becomes(Column(0x8d, 0x29, 0x2f, 0x7f), Column(0x5d, 0xa5, 0x15, 0xd2))
  { LookedUp(0x8d, 0x29, 0x2f, 0x7f, Column(0x5d, 0xa5, 0x15, 0xd2)); }
  lemma Word10() ensures Becomes(Column(0x5c, 0x00, 0x6e, 0x57), Column(0x4a, 0x63, 0x9f, 0x5b))
  { LookedUp(0x5c, 0x00, 0x6e, 0x57, Column(0x4a, 0x63, 0x9f, 0x5b)); }

  lemma MakeKeyStep(k: Grid, n: nat, t: Column, next: Grid)
    requires 1 <= n <= ROUNDS && Becomes(Column(k.c3.b, k.c3.c, k.c3.d, k.c3.a), t) && NextKey(k, t.(a := t.a ^ Rcon(n))) == next
    ensures KeyStep(k, n, next)
  {
  }

  lemma Key1() ensures KeyStep(K0, 1, K1)
  { Word1(); MakeKeyStep(K0, 1, Column(0x8a, 0x84, 0xeb, 0x01), K1); }
  lemma Key2() ensures KeyStep(K1, 2, K2)
  { Word2(); MakeKeyStep(K1, 2, Column(0x50, 0x38, 0x6b, 0xe5), K2); }
  lemma Key3() ensures KeyStep(K2, 3, K3)
  { Word3(); MakeKeyStep(K2, 3, Column(0xcb, 0x42, 0xd2, 0x8f), K3); }
  lemma Key4() ensures KeyStep(K3, 4, K4)
  { Word4(); MakeKeyStep(K3, 4, Column(0xda, 0xc4, 0xe2, 0x3c), K4); }
  lemma Key5() ensures KeyStep(K4, 5, K5)
  { Word5(); MakeKeyStep(K4, 5, Column(0x2b, 0x95, 0x63, 0xb9), K5); }
  lemma Key6() ensures KeyStep(K5, 6, K6)
  { Word6(); MakeKeyStep(K5, 6, Column(0x99, 0x59, 0x65, 0x82), K6); }
  lemma Key7() ensures KeyStep(K6, 7, K7)
  { Word7(); MakeKeyStep(K6, 7, Column(0x63, 0xdc, 0x54, 0x74), K7); }
  lemma Key8() ensures KeyStep(K7, 8, K8)
  { Word8(); MakeKeyStep(K7, 8, Column(0x24, 0x86, 0x84, 0x2f), K8); }
  lemma Key9() ensures KeyStep(K8, 9, K9)
  { Word9(); MakeKeyStep(K8, 9, Column(0x5d, 0xa5, 0x15, 0xd2), K9); }
  lemma Key10() ensures KeyStep(K9, 10, K10)
  { Word10(); MakeKeyStep(K9, 10, Column(0x4a, 0x63, 0x9f, 0x5b), K10); }

  ghost predicate ExampleRoundKeys(keys: RoundKeys) {
    && RoundKey(keys, 0) == K0 && RoundKey(keys, 1) == K1 && RoundKey(keys, 2) == K2 && RoundKey(keys, 3) == K3
    && RoundKey(keys, 4) == K4 && RoundKey(keys, 5) == K5 && RoundKey(keys, 6) == K6 && RoundKey(keys, 7) == K7
    && RoundKey(keys, 8) == K8 && RoundKey(keys, 9) == K9 && RoundKey(keys, 10) == K10
  }

  lemma KeysFromRule(keys: RoundKeys)
    requires RuleEverywhere(keys) && RoundKey(keys, 0) == K0
    ensures ExampleRoundKeys(keys)
  {
    Key1();
    StepKey(keys, 1, K0, K1);
    Key2();
    StepKey(keys, 2, K1, K2);
    Key3();
    StepKey(keys, 3, K2, K3);
    Key4();
    StepKey(keys, 4, K3, K4);
    Key5();
    StepKey(keys, 5, K4, K5);
    Key6();
    StepKey(keys, 6, K5, K6);
    Key7();
    StepKey(keys, 7, K6, K7);
    Key8();
    StepKey(keys, 8, K7, K8);
    Key9();
    StepKey(keys, 9, K8, K9);
    Key10();
    StepKey(keys, 10, K9, K10);
  }

  function KeyGrid(key: Key): Grid {
    Grid(WordAt(key, 0), WordAt(key, 1), WordAt(key, 2), WordAt(key, 3))
  }

  // The key 2b7e1516 28aed2a6 abf71588 09cf4f3c expands to the 44 words of the example.
  lemma ExpandedKey(keys: RoundKeys, key: Key)
    requires IsSchedule(keys, key, 44) && KeyGrid(key) == K0
    ensures ExampleRoundKeys(keys)
  {
    FirstRoundKey(keys, key);
    RuleOfSchedule(keys, key);
    KeysFromRule(keys);
  }

  lemma FirstRoundKey(keys: RoundKeys, key: Key)
    requires IsSchedule(keys, key, 44)
    ensures RoundKey(keys, 0) == KeyGrid(key)
  {
  }

  // ---------- Appendix B: the state at the start of each round, and after ShiftRows ----------

  const S0 := Grid(Column(0x19, 0x3d, 0xe3, 0xbe), Column(0xa0, 0xf4, 0xe2, 0x2b),
                   Column(0x9a, 0xc6, 0x8d, 0x2a), Column(0xe9, 0xf8, 0x48, 0x08))
  const S1 := Grid(Column(0xa4, 0x9c, 0x7f, 0xf2), Column(0x68, 0x9f, 0x35, 0x2b),
                   Column(0x6b, 0x5b, 0xea, 0x43), Column(0x02, 0x6a, 0x50, 0x49))
  const S2 := Grid(Column(0xaa, 0x8f, 0x5f, 0x03), Column(0x61, 0xdd, 0xe3, 0xef),
                   Column(0x82, 0xd2, 0x4a, 0xd2), Column(0x68, 0x32, 0x46, 0x9a))
  const S3 := Grid(Column(0x48, 0x6c, 0x4e, 0xee), Column(0x67, 0x1d, 0x9d, 0x0d),
                   Column(0x4d, 0xe3, 0xb1, 0x38), Column(0xd6, 0x5f, 0x58, 0xe7))
  const S4 := Grid(Column(0xe0, 0x92, 0x7f, 0xe8), Column(0xc8, 0x63, 0x63, 0xc0),
                   Column(0xd9, 0xb1, 0x35, 0x50), Column(0x85, 0xb8, 0xbe, 0x01))
  const S5 := Grid(Column(0xf1, 0x00, 0x6f, 0x55), Column(0xc1, 0x92, 0x4c, 0xef),
                   Column(0x7c, 0xc8, 0x8b, 0x32), Column(0x5d, 0xb5, 0xd5, 0x0c))
  const S6 := Grid(Column(0x26, 0x0e, 0x2e, 0x17), Column(0x3d, 0x41, 0xb7, 0x7d),
                   Column(0xe8, 0x64, 0x72, 0xa9), Column(0xfd, 0xd2, 0x8b, 0x25))
  const S7 := Grid(Column(0x5a, 0x41, 0x42, 0xb1), Column(0x19, 0x49, 0xdc, 0x1f),
                   Column(0xa3, 0xe0, 0x19, 0x65), Column(0x7a, 0x8c, 0x04, 0x0c))
  const S8 := Grid(Column(0xea, 0x83, 0x5c, 0xf0), Column(0x04, 0x45, 0x33, 0x2d),
                   Column(0x65, 0x5d, 0x98, 0xad), Column(0x85, 0x96, 0xb0, 0xc5))
  const S9 := Grid(Column(0xeb, 0x40, 0xf2, 0x1e), Column(0x59, 0x2e, 0x38, 0x84),
                   Column(0x8b, 0xa1, 0x13, 0xe7), Column(0x1b, 0xc3, 0x42, 0xd2))
  const D1 := Grid(Column(0xd4, 0xbf, 0x5d, 0x30), Column(0xe0, 0xb4, 0x52, 0xae),
                   Column(0xb8, 0x41, 0x11, 0xf1), Column(0x1e, 0x27, 0x98, 0xe5))
  const D2 := Grid(Column(0x49, 0xdb, 0x87, 0x3b), Column(0x45, 0x39, 0x53, 0x89),
                   Column(0x7f, 0x02, 0xd2, 0xf1), Column(0x77, 0xde, 0x96, 0x1a))
  const D3 := Grid(Column(0xac, 0xc1, 0xd6, 0xb8), Column(0xef, 0xb5, 0x5a, 0x7b),
                   Column(0x13, 0x23, 0xcf, 0xdf), Column(0x45, 0x73, 0x11, 0xb5))
  const D4 := Grid(Column(0x52, 0xa4, 0xc8, 0x94), Column(0x85, 0x11, 0x6a, 0x28),
                   Column(0xe3, 0xcf, 0x2f, 0xd7), Column(0xf6, 0x50, 0x5e, 0x07))
  const D5 := Grid(Column(0xe1, 0xfb, 0x96, 0x7c), Column(0xe8, 0xc8, 0xae, 0x9b),
                   Column(0x35, 0x6c, 0xd2, 0xba), Column(0x97, 0x4f, 0xfb, 0x53))
  const D6 := Grid(Column(0xa1, 0x4f, 0x3d, 0xfe), Column(0x78, 0xe8, 0x03, 0xfc),
                   Column(0x10, 0xd5, 0xa8, 0xdf), Column(0x4c, 0x63, 0x29, 0x23))
  const D7 := Grid(Column(0xf7, 0x83, 0x40, 0x3f), Column(0x27, 0x43, 0x3d, 0xf0),
                   Column(0x9b, 0xb5, 0x31, 0xff), Column(0x54, 0xab, 0xa9, 0xd3))
  const D8 := Grid(Column(0xbe, 0x3b, 0xd4, 0xfe), Column(0xd4, 0xe1, 0xf2, 0xc8),
                   Column(0x0a, 0x64, 0x2c, 0xc0), Column(0xda, 0x83, 0x86, 0x4d))
  const D9 := Grid(Column(0x87, 0x6e, 0x46, 0xa6), Column(0xf2, 0x4c, 0xe7, 0x8c),
                   Column(0x4d, 0x90, 0x4a, 0xd8), Column(0x97, 0xec, 0xc3, 0x95))
  const D10 := Grid(Column(0xe9, 0x31, 0x7d, 0xb5), Column(0xcb, 0x32, 0x2c, 0x72),
                    Column(0x3d, 0x2e, 0x89, 0x5f), Column(0xaf, 0x09, 0x07, 0x94))
  const INPUT := Grid(Column(0x32, 0x43, 0xf6, 0xa8), Column(0x88, 0x5a, 0x30, 0x8d),
                      Column(0x31, 0x31, 0x98, 0xa2), Column(0xe0, 0x37, 0x07, 0x34))
  const OUTPUT := Grid(Column(0x39, 0x25, 0x84, 0x1d), Column(0x02, 0xdc, 0x09, 0xfb),
                       Column(0xdc, 0x11, 0x85, 0x97), Column(0x19, 0x6a, 0x0b, 0x32))

  lemma Sub1_0() ensures Becomes(Column(0x19, 0xf4, 0x8d, 0x08), Column(0xd4, 0xbf, 0x5d, 0x30))
  { LookedUp(0x19, 0xf4, 0x8d, 0x08, Column(0xd4, 0xbf, 0x5d, 0x30)); }
  lemma Sub1_1() ensures Becomes(Column(0xa0, 0xc6, 0x48, 0xbe), Column(0xe0, 0xb4, 0x52, 0xae))
  { LookedUp(0xa0, 0xc6, 0x48, 0xbe, Column(0xe0, 0xb4, 0x52, 0xae)); }
  lemma Sub1_2() ensures Becomes(Column(0x9a, 0xf8, 0xe3, 0x2b), Column(0xb8, 0x41, 0x11, 0xf1))
  { LookedUp(0x9a, 0xf8, 0xe3, 0x2b, Column(0xb8, 0x41, 0x11, 0xf1)); }
  lemma Sub1_3() ensures Becomes(Column(0xe9, 0x3d, 0xe2, 0x2a), Column(0x1e, 0x27, 0x98, 0xe5))
  { LookedUp(0xe9, 0x3d, 0xe2, 0x2a, Column(0x1e, 0x27, 0x98, 0xe5)); }
  lemma Sub2_0() ensures Becomes(Column(0xa4, 0x9f, 0xea, 0x49), Column(0x49, 0xdb, 0x87, 0x3b))
  { LookedUp(0xa4, 0x9f, 0xea, 0x49, Column(0x49, 0xdb, 0x87, 0x3b)); }
  lemma Sub2_1() ensures Becomes(Column(0x68, 0x5b, 0x50, 0xf2), Column(0x45, 0x39, 0x53, 0x89))
  { LookedUp(0x68, 0x5b, 0x50, 0xf2, Column(0x45, 0x39, 0x53, 0x89)); }
  lemma Sub2_2() ensures Becomes(Column(0x6b, 0x6a, 0x7f, 0x2b), Column(0x7f, 0x02, 0xd2, 0xf1))
  { LookedUp(0x6b, 0x6a, 0x7f, 0x2b, Column(0x7f, 0x02, 0xd2, 0xf1)); }
  lemma Sub2_3() ensures Becomes(Column(0x02, 0x9c, 0x35, 0x43), Column(0x77, 0xde, 0x96, 0x1a))
  { LookedUp(0x02, 0x9c, 0x35, 0x43, Column(0x77, 0xde, 0x96, 0x1a)); }
  lemma Sub3_0() ensures Becomes(Column(0xaa, 0xdd, 0x4a, 0x9a), Column(0xac, 0xc1, 0xd6, 0xb8))
  { LookedUp(0xaa, 0xdd, 0x4a, 0x9a, Column(0xac, 0xc1, 0xd6, 0xb8)); }
  lemma Sub3_1() ensures Becomes(Column(0x61, 0xd2, 0x46, 0x03), Column(0xef, 0xb5, 0x5a, 0x7b))
  { LookedUp(0x61, 0xd2, 0x46, 0x03, Column(0xef, 0xb5, 0x5a, 0x7b)); }
  lemma Sub3_2() ensures Becomes(Column(0x82, 0x32, 0x5f, 0xef), Column(0x13, 0x23, 0xcf, 0xdf))
  { LookedUp(0x82, 0x32, 0x5f, 0xef, Column(0x13, 0x23, 0xcf, 0xdf)); }
  lemma Sub3_3() ensures Becomes(Column(0x68, 0x8f, 0xe3, 0xd2), Column(0x45, 0x73, 0x11, 0xb5))
  { LookedUp(0x68, 0x8f, 0xe3, 0xd2, Column(0x45, 0x73, 0x11, 0xb5)); }
  lemma Sub4_0() ensures Becomes(Column(0x48, 0x1d, 0xb1, 0xe7), Column(0x52, 0xa4, 0xc8, 0x94))
  { LookedUp(0x48, 0x1d, 0xb1, 0xe7, Column(0x52, 0xa4, 0xc8, 0x94)); }
  lemma Sub4_1() ensures Becomes(Column(0x67, 0xe3, 0x58, 0xee), Column(0x85, 0x11, 0x6a, 0x28))
  { LookedUp(0x67, 0xe3, 0x58, 0xee, Column(0x85, 0x11, 0x6a, 0x28)); }
  lemma Sub4_2() ensures Becomes(Column(0x4d, 0x5f, 0x4e, 0x0d), Column(0xe3, 0xcf, 0x2f, 0xd7))
  { LookedUp(0x4d, 0x5f, 0x4e, 0x0d, Column(0xe3, 0xcf, 0x2f, 0xd7)); }
  lemma Sub4_3() ensures Becomes(Column(0xd6, 0x6c, 0x9d, 0x38), Column(0xf6, 0x50, 0x5e, 0x07))
  { LookedUp(0xd6, 0x6c, 0x9d, 0x38, Column(0xf6, 0x50, 0x5e, 0x07)); }
  lemma Sub5_0() ensures Becomes(Column(0xe0, 0x63, 0x35, 0x01), Column(0xe1, 0xfb, 0x96, 0x7c))
  { LookedUp(0xe0, 0x63, 0x35, 0x01, Column(0xe1, 0xfb, 0x96, 0x7c)); }
  lemma Sub5_1() ensures Becomes(Column(0xc8, 0xb1, 0xbe, 0xe8), Column(0xe8, 0xc8, 0xae, 0x9b))
  { LookedUp(0xc8, 0xb1, 0xbe, 0xe8, Column(0xe8, 0xc8, 0xae, 0x9b)); }
  lemma Sub5_2() ensures Becomes(Column(0xd9, 0xb8, 0x7f, 0xc0), Column(0x35, 0x6c, 0xd2, 0xba))
  { LookedUp(0xd9, 0xb8, 0x7f, 0xc0, Column(0x35, 0x6c, 0xd2, 0xba)); }
  lemma Sub5_3() ensures Becomes(Column(0x85, 0x92, 0x63, 0x50), Column(0x97, 0x4f, 0xfb, 0x53))
  { LookedUp(0x85, 0x92, 0x63, 0x50, Column(0x97, 0x4f, 0xfb, 0x53)); }
  lemma Sub6_0() ensures Becomes(Column(0xf1, 0x92, 0x8b, 0x0c), Column(0xa1, 0x4f, 0x3d, 0xfe))
  { LookedUp(0xf1, 0x92, 0x8b, 0x0c, Column(0xa1, 0x4f, 0x3d, 0xfe)); }
  lemma Sub6_1() ensures Becomes(Column(0xc1, 0xc8, 0xd5, 0x55), Column(0x78, 0xe8, 0x03, 0xfc))
  { LookedUp(0xc1, 0xc8, 0xd5, 0x55, Column(0x78, 0xe8, 0x03, 0xfc)); }
  lemma Sub6_2() ensures Becomes(Column(0x7c, 0xb5, 0x6f, 0xef), Column(0x10, 0xd5, 0xa8, 0xdf))
  { LookedUp(0x7c, 0xb5, 0x6f, 0xef, Column(0x10, 0xd5, 0xa8, 0xdf)); }
  lemma Sub6_3() ensures Becomes(Column(0x5d, 0x00, 0x4c, 0x32), Column(0x4c, 0x63, 0x29, 0x23))
  { LookedUp(0x5d, 0x00, 0x4c, 0x32, Column(0x4c, 0x63, 0x29, 0x23)); }
  lemma Sub7_0() ensures Becomes(Column(0x26, 0x41, 0x72, 0x25), Column(0xf7, 0x83, 0x40, 0x3f))
  { LookedUp(0x26, 0x41, 0x72, 0x25, Column(0xf7, 0x83, 0x40, 0x3f)); }
  lemma Sub7_1() ensures Becomes(Column(0x3d, 0x64, 0x8b, 0x17), Column(0x27, 0x43, 0x3d, 0xf0))
  { LookedUp(0x3d, 0x64, 0x8b, 0x17, Column(0x27, 0x43, 0x3d, 0xf0)); }
  lemma Sub7_2() ensures Becomes(Column(0xe8, 0xd2, 0x2e, 0x7d), Column(0x9b, 0xb5, 0x31, 0xff))
  { LookedUp(0xe8, 0xd2, 0x2e, 0x7d, Column(0x9b, 0xb5, 0x31, 0xff)); }
  lemma Sub7_3() ensures Becomes(Column(0xfd, 0x0e, 0xb7, 0xa9), Column(0x54, 0xab, 0xa9, 0xd3))
  { LookedUp(0xfd, 0x0e, 0xb7, 0xa9, Column(0x54, 0xab, 0xa9, 0xd3)); }
  lemma Sub8_0() ensures Becomes(Column(0x5a, 0x49, 0x19, 0x0c), Column(0xbe, 0x3b, 0xd4, 0xfe))
  { LookedUp(0x5a, 0x49, 0x19, 0x0c, Column(0xbe, 0x3b, 0xd4, 0xfe)); }
  lemma Sub8_1() ensures Becomes(Column(0x19, 0xe0, 0x04, 0xb1), Column(0xd4, 0xe1, 0xf2, 0xc8))
  { LookedUp(0x19, 0xe0, 0x04, 0xb1, Column(0xd4, 0xe1, 0xf2, 0xc8)); }
  lemma Sub8_2() ensures Becomes(Column(0xa3, 0x8c, 0x42, 0x1f), Column(0x0a, 0x64, 0x2c, 0xc0))
  { LookedUp(0xa3, 0x8c, 0x42, 0x1f, Column(0x0a, 0x64, 0x2c, 0xc0)); }
  lemma Sub8_3() ensures Becomes(Column(0x7a, 0x41, 0xdc, 0x65), Column(0xda, 0x83, 0x86, 0x4d))
  { LookedUp(0x7a, 0x41, 0xdc, 0x65, Column(0xda, 0x83, 0x86, 0x4d)); }
  lemma Sub9_0() ensures Becomes(Column(0xea, 0x45, 0x98, 0xc5), Column(0x87, 0x6e, 0x46, 0xa6))
  { LookedUp(0xea, 0x45, 0x98, 0xc5, Column(0x87, 0x6e, 0x46, 0xa6)); }
  lemma Sub9_1() ensures Becomes(Column(0x04, 0x5d, 0xb0, 0xf0), Column(0xf2, 0x4c, 0xe7, 0x8c))
  { LookedUp(0x04, 0x5d, 0xb0, 0xf0, Column(0xf2, 0x4c, 0xe7, 0x8c)); }
  lemma Sub9_2() ensures Becomes(Column(0x65, 0x96, 0x5c, 0x2d), Column(0x4d, 0x90, 0x4a, 0xd8))
  { LookedUp(0x65, 0x96, 0x5c, 0x2d, Column(0x4d, 0x90, 0x4a, 0xd8)); }
  lemma Sub9_3() ensures Becomes(Column(0x85, 0x83, 0x33, 0xad), Column(0x97, 0xec, 0xc3, 0x95))
  { LookedUp(0x85, 0x83, 0x33, 0xad, Column(0x97, 0xec, 0xc3, 0x95)); }
  lemma Sub10_0() ensures Becomes(Column(0xeb, 0x2e, 0x13, 0xd2), Column(0xe9, 0x31, 0x7d, 0xb5))
  { LookedUp(0xeb, 0x2e, 0x13, 0xd2, Column(0xe9, 0x31, 0x7d, 0xb5)); }
  lemma Sub10_1() ensures Becomes(Column(0x59, 0xa1, 0x42, 0x1e), Column(0xcb, 0x32, 0x2c, 0x72))
  { LookedUp(0x59, 0xa1, 0x42, 0x1e, Column(0xcb, 0x32, 0x2c, 0x72)); }
  lemma Sub10_2() ensures Becomes(Column(0x8b, 0xc3, 0xf2, 0x84), Column(0x3d, 0x2e, 0x89, 0x5f))
  { LookedUp(0x8b, 0xc3, 0xf2, 0x84, Column(0x3d, 0x2e, 0x89, 0x5f)); }
  lemma Sub10_3() ensures Becomes(Column(0x1b, 0x40, 0x38, 0xe7), Column(0xaf, 0x09, 0x07, 0x94))
  { LookedUp(0x1b, 0x40, 0x38, 0xe7, Column(0xaf, 0x09, 0x07, 0x94)); }

  ghost predicate RoundAt(g: Grid, k: Grid, out: Grid) {
    forall next :: RoundStep(g, k, next) ==> out == next
  }

  // The grids u(0) to u(9) are the states of the cipher under the round keys k.
  ghost predicate Rounds(u: nat -> Grid, k: nat -> Grid) {
    forall n: nat :: n < 9 ==> RoundAt(u(n), k(n + 1), u(n + 1))
  }

  ghost predicate ExampleKeys(k: nat -> Grid) {
    && k(0) == K0 && k(1) == K1 && k(2) == K2 && k(3) == K3 && k(4) == K4 && k(5) == K5
    && k(6) == K6 && k(7) == K7 && k(8) == K8 && k(9) == K9 && k(10) == K10
  }

  lemma Advance(u: nat -> Grid, k: nat -> Grid, n: nat, g: Grid, key: Grid, d: Grid, next: Grid)
    requires Rounds(u, k) && n < 9 && u(n) == g && k(n + 1) == key && Shifted(g, d) && AddGrids(Mixed(d), key) == next
    ensures u(n + 1) == next
  {
    assert RoundStep(g, key, next);
    assert RoundAt(u(n), k(n + 1), u(n + 1));
  }

  lemma Start1(u: nat -> Grid, k: nat -> Grid)
    requires Rounds(u, k) && k(1) == K1 && u(0) == S0
    ensures u(1) == S1
  {
    Sub1_0(); Sub1_1(); Sub1_2(); Sub1_3();
    Advance(u, k, 0, S0, K1, D1, S1);
  }

  lemma Start2(u: nat -> Grid, k: nat -> Grid)
    requires Rounds(u, k) && k(2) == K2 && u(1) == S1
    ensures u(2) == S2
  {
    Sub2_0(); Sub2_1(); Sub2_2(); Sub2_3();
    Advance(u, k, 1, S1, K2, D2, S2);
  }

  lemma Start3(u: nat -> Grid, k: nat -> Grid)
    requires Rounds(u, k) && k(3) == K3 && u(2) == S2
    ensures u(3) == S3
  {
    Sub3_0(); Sub3_1(); Sub3_2(); Sub3_3();
    Advance(u, k, 2, S2, K3, D3, S3);
  }

  lemma Start4(u: nat -> Grid, k: nat -> Grid)
    requires Rounds(u, k) && k(4) == K4 && u(3) == S3
    ensures u(4) == S4
  {
    Sub4_0(); Sub4_1(); Sub4_2(); Sub4_3();
    Advance(u, k, 3, S3, K4, D4, S4);
  }

  lemma Start5(u: nat -> Grid, k: nat -> Grid)
    requires Rounds(u, k) && k(5) == K5 && u(4) == S4
    ensures u(5) == S5
  {
    Sub5_0(); Sub5_1(); Sub5_2(); Sub5_3();
    Advance(u, k, 4, S4, K5, D5, S5);
  }

  lemma Start6(u: nat -> Grid, k: nat -> Grid)
    requires Rounds(u, k) && k(6) == K6 && u(5) == S5
    ensures u(6) == S6
  {
    Sub6_0(); Sub6_1(); Sub6_2(); Sub6_3();
    Advance(u, k, 5, S5, K6, D6, S6);
  }

  lemma Start7(u: nat -> Grid, k: nat -> Grid)
    requires Rounds(u, k) && k(7) == K7 && u(6) == S6
    ensures u(7) == S7
  {
    Sub7_0(); Sub7_1(); Sub7_2(); Sub7_3();
    Advance(u, k, 6, S6, K7, D7, S7);
  }

  lemma Start8(u: nat -> Grid, k: nat -> Grid)
    requires Rounds(u, k) && k(8) == K8 && u(7) == S7
    ensures u(8) == S8
  {
    Sub8_0(); Sub8_1(); Sub8_2(); Sub8_3();
    Advance(u, k, 7, S7, K8, D8, S8);
  }

  lemma Start9(u: nat -> Grid, k: nat -> Grid)
    requires Rounds(u, k) && k(9) == K9 && u(8) == S8
    ensures u(9) == S9
  {
    Sub9_0(); Sub9_1(); Sub9_2(); Sub9_3();
    Advance(u, k, 8, S8, K9, D9, S9);
  }

  lemma Finish()
    ensures LastStep(S9, K10, OUTPUT)
  {
    Sub10_0(); Sub10_1(); Sub10_2(); Sub10_3();
    assert Shifted(S9, D10);
    assert AddGrids(D10, K10) == OUTPUT;
  }

  lemma States(u: nat -> Grid, k: nat -> Grid)
    requires Rounds(u, k) && ExampleKeys(k) && u(0) == S0
    ensures u(9) == S9
  {
    Start1(u, k);
    Start2(u, k);
    Start3(u, k);
    Start4(u, k);
    Start5(u, k);
    Start6(u, k);
    Start7(u, k);
    Start8(u, k);
    Start9(u, k);
  }

  function UpGrid(s: Block, keys: RoundKeys, n: nat): Grid {
    if n < ROUNDS then GridOf(Up(s, keys, n)) else GridOf(s)
  }

  function KeyAt(keys: RoundKeys, n: nat): Grid {
    if n <= ROUNDS then RoundKey(keys, n) else RoundKey(keys, 0)
  }

  lemma UpStep(s: Block, keys: RoundKeys, n: nat, next: Grid)
    requires n < 9 && RoundStep(UpGrid(s, keys, n), KeyAt(keys, n + 1), next)
    ensures UpGrid(s, keys, n + 1) == next
  {
    MiddleStep(Up(s, keys, n), keys, n + 1, UpGrid(s, keys, n), KeyAt(keys, n + 1), next);
  }

  lemma UpSteps(s: Block, keys: RoundKeys, n: nat)
    requires n < 9
    ensures RoundAt(UpGrid(s, keys, n), KeyAt(keys, n + 1), UpGrid(s, keys, n + 1))
  {
    var g, k, out := UpGrid(s, keys, n), KeyAt(keys, n + 1), UpGrid(s, keys, n + 1);
    forall next | RoundStep(g, k, next) ensures out == next {
      UpStep(s, keys, n, next);
    }
  }

  lemma Opening(s: Block, keys: RoundKeys)
    requires GridOf(s) == INPUT && RoundKey(keys, 0) == K0
    ensures UpGrid(s, keys, 0) == S0
  {
    AddedGrid(s, keys, 0, INPUT, K0);
  }

  lemma KeysTabulated(keys: RoundKeys) returns (k: nat -> Grid)
    ensures forall n: nat :: k(n) == KeyAt(keys, n)
    ensures ExampleRoundKeys(keys) ==> ExampleKeys(k)
  {
    k := (n: nat) => KeyAt(keys, n);
  }

  lemma StatesTabulated(s: Block, keys: RoundKeys, k: nat -> Grid) returns (u: nat -> Grid)
    requires forall n: nat :: k(n) == KeyAt(keys, n)
    ensures Rounds(u, k) && u(0) == UpGrid(s, keys, 0) && u(9) == UpGrid(s, keys, 9)
  {
    u := (n: nat) => UpGrid(s, keys, n);
    forall n: nat | n < 9 ensures RoundAt(u(n), k(n + 1), u(n + 1)) {
      UpSteps(s, keys, n);
    }
  }

  lemma StatesOf(s: Block, keys: RoundKeys)
    requires GridOf(s) == INPUT && ExampleRoundKeys(keys)
    ensures UpGrid(s, keys, 9) == S9
  {
    var k := KeysTabulated(keys);
    var u := StatesTabulated(s, keys, k);
    Opening(s, keys);
    States(u, k);
  }

  lemma EncryptedWith(s: Block, keys: RoundKeys)
    requires GridOf(s) == INPUT && ExampleRoundKeys(keys)
    ensures GridOf(Up(s, keys, 9)) == S9 && GridOf(Cipher(s, keys)) == OUTPUT
  {
    StatesOf(s, keys);
    Finish();
    FinalStep(Up(s, keys, 9), keys, 10, S9, K10, OUTPUT);
  }

  // The block 3243f6a8 885a308d 313198a2 e0370734 under the key of the other example: the ciphertext is
  // 3925841d 02dc09fb dc118597 196a0b32.
  lemma Encrypted(s: Block, keys: RoundKeys, key: Key)
    requires IsSchedule(keys, key, 44) && KeyGrid(key) == K0 && GridOf(s) == INPUT
    ensures GridOf(Up(s, keys, 9)) == S9 && GridOf(Cipher(s, keys)) == OUTPUT
  {
    ExpandedKey(keys, key);
    EncryptedWith(s, keys);
  }

  // And back.
  lemma Decrypted(c: Block, keys: RoundKeys, key: Key)
    requires IsSchedule(keys, key, 44) && KeyGrid(key) == K0 && GridOf(c) == OUTPUT
    ensures GridOf(InvCipher(c, keys)) == INPUT
  {
    var s := BlockOf(INPUT);
    Encrypted(s, keys, key);
    SameGrid(Cipher(s, keys), c);
    InvCipherUndoesCipher(s, keys);
  }
}
