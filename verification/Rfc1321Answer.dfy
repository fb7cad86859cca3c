/** A known answer of RFC 1321, appendix A.5: the digest of "abc", line by line of section 3.4.  The method and the
    specification share the tables, the initial registers and the two orders of bytes; this fixes them. */
module Rfc1321Answer {
  import opened Bits
  import opened Rfc1321

  /** The four operations of a line, with what each yields. */
  lemma {:induction false} LineOf(s: Registers, x: seq<Word>, line: nat, r: Registers)
    requires |x| == 16 && line < 16
    requires var (k, n, t) := (Indices(line), Shifts(line / 4), T(line));
      && Operation(line / 4, s.a, s.b, s.c, s.d, x[k.0], n.0, t.0) == r.a
      && Operation(line / 4, s.d, r.a, s.b, s.c, x[k.1], n.1, t.1) == r.d
      && Operation(line / 4, s.c, r.d, r.a, s.b, x[k.2], n.2, t.2) == r.c
      && Operation(line / 4, s.b, r.c, r.d, r.a, x[k.3], n.3, t.3) == r.b
    ensures Line(s, x, line) == r
  {
    hide Operation, Indices, Shifts, T;
  }

  /** The message with its padding and its length of 24 bits, in words. */
  const ABC: seq<Word> := [0x8063_6261, 0, 0, 0, 0, 0, 0, 0, 0, 0, 0, 0, 0, 0, 24, 0]

  /** The registers after so many lines. */
  function After(line: nat): Registers
    requires line <= 16
  {
    match line
    case 0 => Registers(0x6745_2301, 0xefcd_ab89, 0x98ba_dcfe, 0x1032_5476)
    case 1 => Registers(0xd6d1_17b4, 0x7ad9_56f2, 0x2f6f_bd72, 0x344a_8432)
    case 2 => Registers(0xc737_41ef, 0x928d_99f6, 0x207d_c67b, 0x8bac_3051)
    case 3 => Registers(0x854b_3712, 0x5ed4_9596, 0x3020_401c, 0x74e2_f284)
    case 4 => Registers(0xdda9_b9a6, 0x72af_f2e0, 0xe396_856b, 0xa105_1895)
    case 5 => Registers(0x3e9e_9126, 0xb5b2_04e4, 0xe25e_1652, 0x4a1d_804e)
    case 6 => Registers(0x59a8_ffda, 0x4709_2c07, 0xabfc_7920, 0x6d00_2f1e)
    case 7 => Registers(0xb7f2_68cf, 0x786a_cb8f, 0xfe16_23b1, 0x0938_8eff)
    case 8 => Registers(0x790a_77fb, 0x7263_42d3, 0xa628_84aa, 0x9f47_e4f8)
    case 9 => Registers(0xb370_7ebf, 0x3b08_75c7, 0x8d21_2ff5, 0x6012_7b2e)
    case 10 => Registers(0x21b1_17b9, 0x5a2f_5ea5, 0x3575_227e, 0x6e74_29d5)
    case 11 => Registers(0x11de_1779, 0x4c61_24f4, 0x31c4_65ca, 0xfadc_aa38)
    case 12 => Registers(0x7f2e_507b, 0x7beb_9700, 0x8fae_6399, 0x99d9_679d)
    case 13 => Registers(0x7b20_1df8, 0x8bf0_25c4, 0xb298_cefd, 0xf4e8_e96e)
    case 14 => Registers(0x06cc_5e8a, 0x3bfa_2c27, 0x7d63_2dd0, 0x5b0d_97aa)
    case 15 => Registers(0x7f81_cc35, 0x7327_d604, 0x4f9d_be3f, 0x0944_54ab)
    case 16 => Registers(0x310a_de8f, 0xc082_26b3, 0xe484_b9d8, 0x624d_8cb2)
  }

  lemma {:induction false} Operations1()
    ensures Operation(0, 0x6745_2301, 0xefcd_ab89, 0x98ba_dcfe, 0x1032_5476, 0x8063_6261, 7, 0xd76a_a478) == 0xd6d1_17b4
    ensures Operation(0, 0x1032_5476, 0xd6d1_17b4, 0xefcd_ab89, 0x98ba_dcfe, 0, 12, 0xe8c7_b756) == 0x344a_8432
    ensures Operation(0, 0x98ba_dcfe, 0x344a_8432, 0xd6d1_17b4, 0xefcd_ab89, 0, 17, 0x2420_70db) == 0x2f6f_bd72
    ensures Operation(0, 0xefcd_ab89, 0x2f6f_bd72, 0x344a_8432, 0xd6d1_17b4, 0, 22, 0xc1bd_ceee) == 0x7ad9_56f2
  {
  }

  lemma {:induction false} Line1()
    ensures |ABC| == 16 && Line(After(0), ABC, 0) == After(1)
  {
    hide Operation, Line;
    Operations1();
    LineOf(After(0), ABC, 0, After(1));
  }

  lemma {:induction false} Operations2()
    ensures Operation(0, 0xd6d1_17b4, 0x7ad9_56f2, 0x2f6f_bd72, 0x344a_8432, 0, 7, 0xf57c_0faf) == 0xc737_41ef
    ensures Operation(0, 0x344a_8432, 0xc737_41ef, 0x7ad9_56f2, 0x2f6f_bd72, 0, 12, 0x4787_c62a) == 0x8bac_3051
    ensures Operation(0, 0x2f6f_bd72, 0x8bac_3051, 0xc737_41ef, 0x7ad9_56f2, 0, 17, 0xa830_4613) == 0x207d_c67b
    ensures Operation(0, 0x7ad9_56f2, 0x207d_c67b, 0x8bac_3051, 0xc737_41ef, 0, 22, 0xfd46_9501) == 0x928d_99f6
  {
  }

  lemma {:induction false} Line2()
    ensures |ABC| == 16 && Line(After(1), ABC, 1) == After(2)
  {
    hide Operation, Line;
    Operations2();
    LineOf(After(1), ABC, 1, After(2));
  }

  lemma {:induction false} Operations3()
    ensures Operation(0, 0xc737_41ef, 0x928d_99f6, 0x207d_c67b, 0x8bac_3051, 0, 7, 0x6980_98d8) == 0x854b_3712
    ensures Operation(0, 0x8bac_3051, 0x854b_3712, 0x928d_99f6, 0x207d_c67b, 0, 12, 0x8b44_f7af) == 0x74e2_f284
    ensures Operation(0, 0x207d_c67b, 0x74e2_f284, 0x854b_3712, 0x928d_99f6, 0, 17, 0xffff_5bb1) == 0x3020_401c
    ensures Operation(0, 0x928d_99f6, 0x3020_401c, 0x74e2_f284, 0x854b_3712, 0, 22, 0x895c_d7be) == 0x5ed4_9596
  {
  }

  lemma {:induction false} Line3()
    ensures |ABC| == 16 && Line(After(2), ABC, 2) == After(3)
  {
    hide Operation, Line;
    Operations3();
    LineOf(After(2), ABC, 2, After(3));
  }

  lemma {:induction false} Operations4()
    ensures Operation(0, 0x854b_3712, 0x5ed4_9596, 0x3020_401c, 0x74e2_f284, 0, 7, 0x6b90_1122) == 0xdda9_b9a6
    ensures Operation(0, 0x74e2_f284, 0xdda9_b9a6, 0x5ed4_9596, 0x3020_401c, 0, 12, 0xfd98_7193) == 0xa105_1895
    ensures Operation(0, 0x3020_401c, 0xa105_1895, 0xdda9_b9a6, 0x5ed4_9596, 24, 17, 0xa679_438e) == 0xe396_856b
    ensures Operation(0, 0x5ed4_9596, 0xe396_856b, 0xa105_1895, 0xdda9_b9a6, 0, 22, 0x49b4_0821) == 0x72af_f2e0
  {
  }

  lemma {:induction false} Line4()
    ensures |ABC| == 16 && Line(After(3), ABC, 3) == After(4)
  {
    hide Operation, Line;
    Operations4();
    LineOf(After(3), ABC, 3, After(4));
  }

  lemma {:induction false} Operations5()
    ensures Operation(1, 0xdda9_b9a6, 0x72af_f2e0, 0xe396_856b, 0xa105_1895, 0, 5, 0xf61e_2562) == 0x3e9e_9126
    ensures Operation(1, 0xa105_1895, 0x3e9e_9126, 0x72af_f2e0, 0xe396_856b, 0, 9, 0xc040_b340) == 0x4a1d_804e
    ensures Operation(1, 0xe396_856b, 0x4a1d_804e, 0x3e9e_9126, 0x72af_f2e0, 0, 14, 0x265e_5a51) == 0xe25e_1652
    ensures Operation(1, 0x72af_f2e0, 0xe25e_1652, 0x4a1d_804e, 0x3e9e_9126, 0x8063_6261, 20, 0xe9b6_c7aa) ==
            0xb5b2_04e4
  {
  }

  lemma {:induction false} Line5()
    ensures |ABC| == 16 && Line(After(4), ABC, 4) == After(5)
  {
    hide Operation, Line;
    Operations5();
    LineOf(After(4), ABC, 4, After(5));
  }

  lemma {:induction false} Operations6()
    ensures Operation(1, 0x3e9e_9126, 0xb5b2_04e4, 0xe25e_1652, 0x4a1d_804e, 0, 5, 0xd62f_105d) == 0x59a8_ffda
    ensures Operation(1, 0x4a1d_804e, 0x59a8_ffda, 0xb5b2_04e4, 0xe25e_1652, 0, 9, 0x0244_1453) == 0x6d00_2f1e
    ensures Operation(1, 0xe25e_1652, 0x6d00_2f1e, 0x59a8_ffda, 0xb5b2_04e4, 0, 14, 0xd8a1_e681) == 0xabfc_7920
    ensures Operation(1, 0xb5b2_04e4, 0xabfc_7920, 0x6d00_2f1e, 0x59a8_ffda, 0, 20, 0xe7d3_fbc8) == 0x4709_2c07
  {
  }

  lemma {:induction false} Line6()
    ensures |ABC| == 16 && Line(After(5), ABC, 5) == After(6)
  {
    hide Operation, Line;
    Operations6();
    LineOf(After(5), ABC, 5, After(6));
  }

  lemma {:induction false} Operations7()
    ensures Operation(1, 0x59a8_ffda, 0x4709_2c07, 0xabfc_7920, 0x6d00_2f1e, 0, 5, 0x21e1_cde6) == 0xb7f2_68cf
    ensures Operation(1, 0x6d00_2f1e, 0xb7f2_68cf, 0x4709_2c07, 0xabfc_7920, 24, 9, 0xc337_07d6) == 0x0938_8eff
    ensures Operation(1, 0xabfc_7920, 0x0938_8eff, 0xb7f2_68cf, 0x4709_2c07, 0, 14, 0xf4d5_0d87) == 0xfe16_23b1
    ensures Operation(1, 0x4709_2c07, 0xfe16_23b1, 0x0938_8eff, 0xb7f2_68cf, 0, 20, 0x455a_14ed) == 0x786a_cb8f
  {
  }

  lemma {:induction false} Line7()
    ensures |ABC| == 16 && Line(After(6), ABC, 6) == After(7)
  {
    hide Operation, Line;
    Operations7();
    LineOf(After(6), ABC, 6, After(7));
  }

  lemma {:induction false} Operations8()
    ensures Operation(1, 0xb7f2_68cf, 0x786a_cb8f, 0xfe16_23b1, 0x0938_8eff, 0, 5, 0xa9e3_e905) == 0x790a_77fb
    ensures Operation(1, 0x0938_8eff, 0x790a_77fb, 0x786a_cb8f, 0xfe16_23b1, 0, 9, 0xfcef_a3f8) == 0x9f47_e4f8
    ensures Operation(1, 0xfe16_23b1, 0x9f47_e4f8, 0x790a_77fb, 0x786a_cb8f, 0, 14, 0x676f_02d9) == 0xa628_84aa
    ensures Operation(1, 0x786a_cb8f, 0xa628_84aa, 0x9f47_e4f8, 0x790a_77fb, 0, 20, 0x8d2a_4c8a) == 0x7263_42d3
  {
  }

  lemma {:induction false} Line8()
    ensures |ABC| == 16 && Line(After(7), ABC, 7) == After(8)
  {
    hide Operation, Line;
    Operations8();
    LineOf(After(7), ABC, 7, After(8));
  }

  lemma {:induction false} Operations9()
    ensures Operation(2, 0x790a_77fb, 0x7263_42d3, 0xa628_84aa, 0x9f47_e4f8, 0, 4, 0xfffa_3942) == 0xb370_7ebf
    ensures Operation(2, 0x9f47_e4f8, 0xb370_7ebf, 0x7263_42d3, 0xa628_84aa, 0, 11, 0x8771_f681) == 0x6012_7b2e
    ensures Operation(2, 0xa628_84aa, 0x6012_7b2e, 0xb370_7ebf, 0x7263_42d3, 0, 16, 0x6d9d_6122) == 0x8d21_2ff5
    ensures Operation(2, 0x7263_42d3, 0x8d21_2ff5, 0x6012_7b2e, 0xb370_7ebf, 24, 23, 0xfde5_380c) == 0x3b08_75c7
  {
  }

  lemma {:induction false} Line9()
    ensures |ABC| == 16 && Line(After(8), ABC, 8) == After(9)
  {
    hide Operation, Line;
    Operations9();
    LineOf(After(8), ABC, 8, After(9));
  }

  lemma {:induction false} Operations10()
    ensures Operation(2, 0xb370_7ebf, 0x3b08_75c7, 0x8d21_2ff5, 0x6012_7b2e, 0, 4, 0xa4be_ea44) == 0x21b1_17b9
    ensures Operation(2, 0x6012_7b2e, 0x21b1_17b9, 0x3b08_75c7, 0x8d21_2ff5, 0, 11, 0x4bde_cfa9) == 0x6e74_29d5
    ensures Operation(2, 0x8d21_2ff5, 0x6e74_29d5, 0x21b1_17b9, 0x3b08_75c7, 0, 16, 0xf6bb_4b60) == 0x3575_227e
    ensures Operation(2, 0x3b08_75c7, 0x3575_227e, 0x6e74_29d5, 0x21b1_17b9, 0, 23, 0xbebf_bc70) == 0x5a2f_5ea5
  {
  }

  lemma {:induction false} Line10()
    ensures |ABC| == 16 && Line(After(9), ABC, 9) == After(10)
  {
    hide Operation, Line;
    Operations10();
    LineOf(After(9), ABC, 9, After(10));
  }

  lemma {:induction false} Operations11()
    ensures Operation(2, 0x21b1_17b9, 0x5a2f_5ea5, 0x3575_227e, 0x6e74_29d5, 0, 4, 0x289b_7ec6) == 0x11de_1779
    ensures Operation(2, 0x6e74_29d5, 0x11de_1779, 0x5a2f_5ea5, 0x3575_227e, 0x8063_6261, 11, 0xeaa1_27fa) ==
            0xfadc_aa38
    ensures Operation(2, 0x3575_227e, 0xfadc_aa38, 0x11de_1779, 0x5a2f_5ea5, 0, 16, 0xd4ef_3085) == 0x31c4_65ca
    ensures Operation(2, 0x5a2f_5ea5, 0x31c4_65ca, 0xfadc_aa38, 0x11de_1779, 0, 23, 0x0488_1d05) == 0x4c61_24f4
  {
  }

  lemma {:induction false} Line11()
    ensures |ABC| == 16 && Line(After(10), ABC, 10) == After(11)
  {
    hide Operation, Line;
    Operations11();
    LineOf(After(10), ABC, 10, After(11));
  }

  lemma {:induction false} Operations12()
    ensures Operation(2, 0x11de_1779, 0x4c61_24f4, 0x31c4_65ca, 0xfadc_aa38, 0, 4, 0xd9d4_d039) == 0x7f2e_507b
    ensures Operation(2, 0xfadc_aa38, 0x7f2e_507b, 0x4c61_24f4, 0x31c4_65ca, 0, 11, 0xe6db_99e5) == 0x99d9_679d
    ensures Operation(2, 0x31c4_65ca, 0x99d9_679d, 0x7f2e_507b, 0x4c61_24f4, 0, 16, 0x1fa2_7cf8) == 0x8fae_6399
    ensures Operation(2, 0x4c61_24f4, 0x8fae_6399, 0x99d9_679d, 0x7f2e_507b, 0, 23, 0xc4ac_5665) == 0x7beb_9700
  {
  }

  lemma {:induction false} Line12()
    ensures |ABC| == 16 && Line(After(11), ABC, 11) == After(12)
  {
    hide Operation, Line;
    Operations12();
    LineOf(After(11), ABC, 11, After(12));
  }

  lemma {:induction false} Operations13()
    ensures Operation(3, 0x7f2e_507b, 0x7beb_9700, 0x8fae_6399, 0x99d9_679d, 0x8063_6261, 6, 0xf429_2244) == 0x7b20_1df8
    ensures Operation(3, 0x99d9_679d, 0x7b20_1df8, 0x7beb_9700, 0x8fae_6399, 0, 10, 0x432a_ff97) == 0xf4e8_e96e
    ensures Operation(3, 0x8fae_6399, 0xf4e8_e96e, 0x7b20_1df8, 0x7beb_9700, 24, 15, 0xab94_23a7) == 0xb298_cefd
    ensures Operation(3, 0x7beb_9700, 0xb298_cefd, 0xf4e8_e96e, 0x7b20_1df8, 0, 21, 0xfc93_a039) == 0x8bf0_25c4
  {
  }

  lemma {:induction false} Line13()
    ensures |ABC| == 16 && Line(After(12), ABC, 12) == After(13)
  {
    hide Operation, Line;
    Operations13();
    LineOf(After(12), ABC, 12, After(13));
  }

  lemma {:induction false} Operations14()
    ensures Operation(3, 0x7b20_1df8, 0x8bf0_25c4, 0xb298_cefd, 0xf4e8_e96e, 0, 6, 0x655b_59c3) == 0x06cc_5e8a
    ensures Operation(3, 0xf4e8_e96e, 0x06cc_5e8a, 0x8bf0_25c4, 0xb298_cefd, 0, 10, 0x8f0c_cc92) == 0x5b0d_97aa
    ensures Operation(3, 0xb298_cefd, 0x5b0d_97aa, 0x06cc_5e8a, 0x8bf0_25c4, 0, 15, 0xffef_f47d) == 0x7d63_2dd0
    ensures Operation(3, 0x8bf0_25c4, 0x7d63_2dd0, 0x5b0d_97aa, 0x06cc_5e8a, 0, 21, 0x8584_5dd1) == 0x3bfa_2c27
  {
  }

  lemma {:induction false} Line14()
    ensures |ABC| == 16 && Line(After(13), ABC, 13) == After(14)
  {
    hide Operation, Line;
    Operations14();
    LineOf(After(13), ABC, 13, After(14));
  }

  lemma {:induction false} Operations15()
    ensures Operation(3, 0x06cc_5e8a, 0x3bfa_2c27, 0x7d63_2dd0, 0x5b0d_97aa, 0, 6, 0x6fa8_7e4f) == 0x7f81_cc35
    ensures Operation(3, 0x5b0d_97aa, 0x7f81_cc35, 0x3bfa_2c27, 0x7d63_2dd0, 0, 10, 0xfe2c_e6e0) == 0x0944_54ab
    ensures Operation(3, 0x7d63_2dd0, 0x0944_54ab, 0x7f81_cc35, 0x3bfa_2c27, 0, 15, 0xa301_4314) == 0x4f9d_be3f
    ensures Operation(3, 0x3bfa_2c27, 0x4f9d_be3f, 0x0944_54ab, 0x7f81_cc35, 0, 21, 0x4e08_11a1) == 0x7327_d604
  {
  }

  lemma {:induction false} Line15()
    ensures |ABC| == 16 && Line(After(14), ABC, 14) == After(15)
  {
    hide Operation, Line;
    Operations15();
    LineOf(After(14), ABC, 14, After(15));
  }

  lemma {:induction false} Operations16()
    ensures Operation(3, 0x7f81_cc35, 0x7327_d604, 0x4f9d_be3f, 0x0944_54ab, 0, 6, 0xf753_7e82) == 0x310a_de8f
    ensures Operation(3, 0x0944_54ab, 0x310a_de8f, 0x7327_d604, 0x4f9d_be3f, 0, 10, 0xbd3a_f235) == 0x624d_8cb2
    ensures Operation(3, 0x4f9d_be3f, 0x624d_8cb2, 0x310a_de8f, 0x7327_d604, 0, 15, 0x2ad7_d2bb) == 0xe484_b9d8
    ensures Operation(3, 0x7327_d604, 0xe484_b9d8, 0x624d_8cb2, 0x310a_de8f, 0, 21, 0xeb86_d391) == 0xc082_26b3
  {
  }

  lemma {:induction false} Line16()
    ensures |ABC| == 16 && Line(After(15), ABC, 15) == After(16)
  {
    hide Operation, Line;
    Operations16();
    LineOf(After(15), ABC, 15, After(16));
  }

  lemma {:induction false} AllLines(n: nat)
    requires n <= 16
    ensures |ABC| == 16 && Lines(INITIAL, ABC, n) == After(n)
  {
    hide Line, After;
    Beginning();
    if n > 0 {
      AllLines(n - 1);
      match n
      case 1 => Line1();
      case 2 => Line2();
      case 3 => Line3();
      case 4 => Line4();
      case 5 => Line5();
      case 6 => Line6();
      case 7 => Line7();
      case 8 => Line8();
      case 9 => Line9();
      case 10 => Line10();
      case 11 => Line11();
      case 12 => Line12();
      case 13 => Line13();
      case 14 => Line14();
      case 15 => Line15();
      case 16 => Line16();
    }
  }

  lemma {:induction false} Beginning()
    ensures INITIAL == After(0)
  {
  }

  const MESSAGE: seq<Byte> := [0x61, 0x62, 0x63]

  lemma {:induction false} PaddedMessage()
    ensures Padded(MESSAGE) == MESSAGE + [0x80] + Zeros(52) + [24, 0, 0, 0, 0, 0, 0, 0]
  {
    LengthOfMessage();
  }

  lemma {:induction false} LengthOfMessage()
    ensures LengthBytes(3) == [24, 0, 0, 0, 0, 0, 0, 0]
  {
    hide ByteOf;
    NoBytes(0);
    NoBytes(1);
    NoBytes(2);
    NoBytes(3);
    NoBytes(4);
    NoBytes(5);
    NoBytes(6);
    LowestByte();
  }

  lemma {:induction false} LowestByte()
    ensures ByteOf(24, 0) == 24 && forall i: nat :: i > 0 ==> ByteOf(24, i) == ByteOf(0, i - 1)
  {
  }

  lemma {:induction false} NoBytes(i: nat)
    ensures ByteOf(0, i) == 0
  {
    if i > 0 {
      NoBytes(i - 1);
    }
  }

  lemma {:induction false} MessageWords()
    ensures |Padded(MESSAGE)| == 64 && Words(Padded(MESSAGE)) == ABC
  {
    hide Padded;
    PaddedMessage();
    var block := Padded(MESSAGE);
    FirstWord();
    forall k | 0 <= k < 16
      ensures WordAt(block, 4 * k) == ABC[k]
    {
      if 0 < k {
        SmallWord(block, 4 * k);
      }
    }
  }

  lemma {:induction false} FirstWord()
    ensures WordAt([0x61, 0x62, 0x63, 0x80], 0) == 0x8063_6261
  {
  }

  lemma {:induction false} SmallWord(block: seq<Byte>, i: nat)
    requires i + 3 < |block| && block[i + 1] == block[i + 2] == block[i + 3] == 0
    ensures WordAt(block, i) == block[i] as Word
  {
  }

  /** MD5 ("abc") = 900150983cd24fb0d6963f7d28e17f72 */
  lemma {:induction false} KnownAnswer()
    ensures Md5([0x61, 0x62, 0x63]) ==
            [0x90, 0x01, 0x50, 0x98, 0x3c, 0xd2, 0x4f, 0xb0, 0xd6, 0x96, 0x3f, 0x7d, 0x28, 0xe1, 0x7f, 0x72]
  {
    hide Lines, Words, WordBytes, After;
    MessageWords();
    AllLines(16);
    OneBlock(Padded(MESSAGE));
    Ending();
  }

  lemma {:induction false} OneBlock(block: seq<Byte>)
    requires |block| == 64
    ensures Blocks(INITIAL, block) == Block(INITIAL, block)
  {
    assert block[..64] == block && block[64..] == [];
  }

  lemma {:induction false} Ending()
    ensures Output(Plus(INITIAL, After(16))) ==
            [0x90, 0x01, 0x50, 0x98, 0x3c, 0xd2, 0x4f, 0xb0, 0xd6, 0x96, 0x3f, 0x7d, 0x28, 0xe1, 0x7f, 0x72]
  {
  }
}
