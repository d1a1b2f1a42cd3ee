/** The loader's checksum table is a literal of 64-bit words; their values are the table
    the checksum loop needs. */
module CrcTable {
  import opened Crc64
  import opened Bits

  // ---- words and their values ---------------------------------------------

  function Half(w: bv64): bv64 { w >> 1 }
  predicate Odd(w: bv64) { w & 1 == 1 }
  function Both(a: bv64, b: bv64): bv64 { a ^ b }

  function Nat(w: bv64): nat {
    if w == 0 then 0 else (if Odd(w) then 1 else 0) + 2 * Nat(Half(w))
  }

  lemma NatParts(w: bv64)
    ensures Nat(w) % 2 == (if Odd(w) then 1 else 0) && Nat(w) / 2 == Nat(Half(w))
  {
  }

  lemma HalvesXor(a: bv64, b: bv64)
    ensures Half(Both(a, b)) == Both(Half(a), Half(b)) && (Odd(Both(a, b)) <==> Odd(a) != Odd(b))
  {
  }

  lemma {:induction false} NatZero(w: bv64)
    ensures Nat(w) == 0 <==> w == 0
  {
    if w != 0 {
      HalfZero(w);
      if !Odd(w) { NatZero(Half(w)); }
    }
  }

  lemma HalfZero(w: bv64)
    ensures w != 0 && !Odd(w) ==> 0 < Half(w) < w
  {
  }

  lemma BothZero(b: bv64)
    ensures Both(0, b) == b
  {
  }

  /** Exclusive or of words is exclusive or of their values. */
  lemma {:induction false} NatXor(a: bv64, b: bv64)
    ensures Nat(Both(a, b)) == Xor(Nat(a), Nat(b))
    decreases Nat(a) + Nat(b)
  {
    hide Xor, Nat, Both, Half, Odd;
    NatZero(a);
    if a == 0 {
      BothZero(b);
      ZeroXor(Nat(b));
    } else {
      NatParts(a);
      NatParts(b);
      NatXor(Half(a), Half(b));
      HalvesXor(a, b);
      NatParts(Both(a, b));
      XorHalf(Nat(a), Nat(b));
      SameHalves(Nat(Both(a, b)), Xor(Nat(a), Nat(b)));
    }
  }

  lemma SameHalves(x: nat, y: nat)
    requires x / 2 == y / 2 && x % 2 == y % 2
    ensures x == y
  {
  }

  // ---- the register on words ----------------------------------------------

  const POLY_WORD: bv64 := 0x42F0_E1EB_A9EA_3693

  lemma PolyHigh()
    ensures Nat(0x42F0) == 0x42F0
  {
    assert Nat(0x0001) == 0x0001;
    assert Nat(0x0002) == 0x0002;
    assert Nat(0x0004) == 0x0004;
    assert Nat(0x0008) == 0x0008;
    assert Nat(0x0010) == 0x0010;
    assert Nat(0x0021) == 0x0021;
    assert Nat(0x0042) == 0x0042;
    assert Nat(0x0085) == 0x0085;
    assert Nat(0x010B) == 0x010B;
    assert Nat(0x0217) == 0x0217;
    assert Nat(0x042F) == 0x042F;
    assert Nat(0x085E) == 0x085E;
    assert Nat(0x10BC) == 0x10BC;
    assert Nat(0x2178) == 0x2178;
  }

  lemma PolyUpper()
    ensures Nat(0x42F0_E1EB) == 0x42F0_E1EB
  {
    PolyHigh();
    assert Nat(0x85E1) == 0x85E1;
    assert Nat(0x0001_0BC3) == 0x0001_0BC3;
    assert Nat(0x0002_1787) == 0x0002_1787;
    assert Nat(0x0004_2F0E) == 0x0004_2F0E;
    assert Nat(0x0008_5E1C) == 0x0008_5E1C;
    assert Nat(0x0010_BC38) == 0x0010_BC38;
    assert Nat(0x0021_7870) == 0x0021_7870;
    assert Nat(0x0042_F0E1) == 0x0042_F0E1;
    assert Nat(0x0085_E1C3) == 0x0085_E1C3;
    assert Nat(0x010B_C387) == 0x010B_C387;
    assert Nat(0x0217_870F) == 0x0217_870F;
    assert Nat(0x042F_0E1E) == 0x042F_0E1E;
    assert Nat(0x085E_1C3D) == 0x085E_1C3D;
    assert Nat(0x10BC_387A) == 0x10BC_387A;
    assert Nat(0x2178_70F5) == 0x2178_70F5;
  }

  lemma PolyLower()
    ensures Nat(0x42F0_E1EB_A9EA) == 0x42F0_E1EB_A9EA
  {
    PolyUpper();
    assert Nat(0x85E1_C3D7) == 0x85E1_C3D7;
    assert Nat(0x0001_0BC3_87AE) == 0x0001_0BC3_87AE;
    assert Nat(0x0002_1787_0F5D) == 0x0002_1787_0F5D;
    assert Nat(0x0004_2F0E_1EBA) == 0x0004_2F0E_1EBA;
    assert Nat(0x0008_5E1C_3D75) == 0x0008_5E1C_3D75;
    assert Nat(0x0010_BC38_7AEA) == 0x0010_BC38_7AEA;
    assert Nat(0x0021_7870_F5D4) == 0x0021_7870_F5D4;
    assert Nat(0x0042_F0E1_EBA9) == 0x0042_F0E1_EBA9;
    assert Nat(0x0085_E1C3_D753) == 0x0085_E1C3_D753;
    assert Nat(0x010B_C387_AEA7) == 0x010B_C387_AEA7;
    assert Nat(0x0217_870F_5D4F) == 0x0217_870F_5D4F;
    assert Nat(0x042F_0E1E_BA9E) == 0x042F_0E1E_BA9E;
    assert Nat(0x085E_1C3D_753D) == 0x085E_1C3D_753D;
    assert Nat(0x10BC_387A_EA7A) == 0x10BC_387A_EA7A;
    assert Nat(0x2178_70F5_D4F5) == 0x2178_70F5_D4F5;
  }

  lemma PolyValue()
    ensures Nat(POLY_WORD) == POLY
  {
    PolyLower();
    assert Nat(0x85E1_C3D7_53D4) == 0x85E1_C3D7_53D4;
    assert Nat(0x0001_0BC3_87AE_A7A8) == 0x0001_0BC3_87AE_A7A8;
    assert Nat(0x0002_1787_0F5D_4F51) == 0x0002_1787_0F5D_4F51;
    assert Nat(0x0004_2F0E_1EBA_9EA3) == 0x0004_2F0E_1EBA_9EA3;
    assert Nat(0x0008_5E1C_3D75_3D46) == 0x0008_5E1C_3D75_3D46;
    assert Nat(0x0010_BC38_7AEA_7A8D) == 0x0010_BC38_7AEA_7A8D;
    assert Nat(0x0021_7870_F5D4_F51B) == 0x0021_7870_F5D4_F51B;
    assert Nat(0x0042_F0E1_EBA9_EA36) == 0x0042_F0E1_EBA9_EA36;
    assert Nat(0x0085_E1C3_D753_D46D) == 0x0085_E1C3_D753_D46D;
    assert Nat(0x010B_C387_AEA7_A8DA) == 0x010B_C387_AEA7_A8DA;
    assert Nat(0x0217_870F_5D4F_51B4) == 0x0217_870F_5D4F_51B4;
    assert Nat(0x042F_0E1E_BA9E_A369) == 0x042F_0E1E_BA9E_A369;
    assert Nat(0x085E_1C3D_753D_46D2) == 0x085E_1C3D_753D_46D2;
    assert Nat(0x10BC_387A_EA7A_8DA4) == 0x10BC_387A_EA7A_8DA4;
    assert Nat(0x2178_70F5_D4F5_1B49) == 0x2178_70F5_D4F5_1B49;
  }

  function Shift(w: bv64): bv64 { if Odd(w) then Both(Half(w), POLY_WORD) else Half(w) }

  function Eight(w: bv64): bv64 { Shift(Shift(Shift(Shift(Shift(Shift(Shift(Shift(w)))))))) }

  lemma ShiftIsStep(w: bv64)
    ensures Nat(Shift(w)) == Step(Nat(w))
  {
    hide Nat, Xor, Both, Half, Odd;
    NatParts(w);
    PolyValue();
    NatXor(Half(w), POLY_WORD);
  }

  lemma EightIsSteps(w: bv64)
    ensures Nat(Eight(w)) == Steps(Nat(w), 8)
  {
    hide Nat, Step, Shift;
    var a := Shift(w);
    var b := Shift(a);
    var c := Shift(b);
    var d := Shift(c);
    var e := Shift(d);
    var f := Shift(e);
    var g := Shift(f);
    ShiftIsStep(w);
    ShiftIsStep(a);
    ShiftIsStep(b);
    ShiftIsStep(c);
    ShiftIsStep(d);
    ShiftIsStep(e);
    ShiftIsStep(f);
    ShiftIsStep(g);
    assert Steps(Nat(g), 1) == Nat(Eight(w));
    assert Steps(Nat(f), 2) == Steps(Nat(g), 1);
    assert Steps(Nat(e), 3) == Steps(Nat(f), 2);
    assert Steps(Nat(d), 4) == Steps(Nat(e), 3);
    assert Steps(Nat(c), 5) == Steps(Nat(d), 4);
    assert Steps(Nat(b), 6) == Steps(Nat(c), 5);
    assert Steps(Nat(a), 7) == Steps(Nat(b), 6);
  }

  // ---- the table ----------------------------------------------------------

  function Literal0(): seq<bv64> {
    [0x0000_0000_0000_0000, 0x3C3B_78E8_88D8_0FE1, 0x7876_F1D1_11B0_1FC2, 0x444D_8939_9968_1023,
     0x750C_2075_70B4_52A3, 0x4937_589D_F86C_5D42, 0x0D7A_D1A4_6104_4D61, 0x3141_A94C_E9DC_4280,
     0x6FF9_833D_B2BC_C861, 0x53C2_FBD5_3A64_C780, 0x178F_72EC_A30C_D7A3, 0x2BB4_0A04_2BD4_D842,
     0x1AF5_A348_C208_9AC2, 0x26CE_DBA0_4AD0_9523, 0x6283_5299_D3B8_8500, 0x5EB8_2A71_5B60_8AE1]
  }

  function Literal1(): seq<bv64> {
    [0x5A12_C5AC_36AD_FDE5, 0x6629_BD44_BE75_F204, 0x2264_347D_271D_E227, 0x1E5F_4C95_AFC5_EDC6,
     0x2F1E_E5D9_4619_AF46, 0x1325_9D31_CEC1_A0A7, 0x5768_1408_57A9_B084, 0x6B53_6CE0_DF71_BF65,
     0x35EB_4691_8411_3584, 0x09D0_3E79_0CC9_3A65, 0x4D9D_B740_95A1_2A46, 0x71A6_CFA8_1D79_25A7,
     0x40E7_66E4_F4A5_6727, 0x7CDC_1E0C_7C7D_68C6, 0x3891_9735_E515_78E5, 0x04AA_EFDD_6DCD_7704]
  }

  function Literal2(): seq<bv64> {
    [0x31C4_488F_3E8F_96ED, 0x0DFF_3067_B657_990C, 0x49B2_B95E_2F3F_892F, 0x7589_C1B6_A7E7_86CE,
     0x44C8_68FA_4E3B_C44E, 0x78F3_1012_C6E3_CBAF, 0x3CBE_992B_5F8B_DB8C, 0x0085_E1C3_D753_D46D,
     0x5E3D_CBB2_8C33_5E8C, 0x6206_B35A_04EB_516D, 0x264B_3A63_9D83_414E, 0x1A70_428B_155B_4EAF,
     0x2B31_EBC7_FC87_0C2F, 0x170A_932F_745F_03CE, 0x5347_1A16_ED37_13ED, 0x6F7C_62FE_65EF_1C0C]
  }

  function Literal3(): seq<bv64> {
    [0x6BD6_8D23_0822_6B08, 0x57ED_F5CB_80FA_64E9, 0x13A0_7CF2_1992_74CA, 0x2F9B_041A_914A_7B2B,
     0x1EDA_AD56_7896_39AB, 0x22E1_D5BE_F04E_364A, 0x66AC_5C87_6926_2669, 0x5A97_246F_E1FE_2988,
     0x042F_0E1E_BA9E_A369, 0x3814_76F6_3246_AC88, 0x7C59_FFCF_AB2E_BCAB, 0x4062_8727_23F6_B34A,
     0x7123_2E6B_CA2A_F1CA, 0x4D18_5683_42F2_FE2B, 0x0955_DFBA_DB9A_EE08, 0x356E_A752_5342_E1E9]
  }

  function Literal4(): seq<bv64> {
    [0x6388_911E_7D1F_2DDA, 0x5FB3_E9F6_F5C7_223B, 0x1BFE_60CF_6CAF_3218, 0x27C5_1827_E477_3DF9,
     0x1684_B16B_0DAB_7F79, 0x2ABF_C983_8573_7098, 0x6EF2_40BA_1C1B_60BB, 0x52C9_3852_94C3_6F5A,
     0x0C71_1223_CFA3_E5BB, 0x304A_6ACB_477B_EA5A, 0x7407_E3F2_DE13_FA79, 0x483C_9B1A_56CB_F598,
     0x797D_3256_BF17_B718, 0x4546_4ABE_37CF_B8F9, 0x010B_C387_AEA7_A8DA, 0x3D30_BB6F_267F_A73B]
  }

  function Literal5(): seq<bv64> {
    [0x399A_54B2_4BB2_D03F, 0x05A1_2C5A_C36A_DFDE, 0x41EC_A563_5A02_CFFD, 0x7DD7_DD8B_D2DA_C01C,
     0x4C96_74C7_3B06_829C, 0x70AD_0C2F_B3DE_8D7D, 0x34E0_8516_2AB6_9D5E, 0x08DB_FDFE_A26E_92BF,
     0x5663_D78F_F90E_185E, 0x6A58_AF67_71D6_17BF, 0x2E15_265E_E8BE_079C, 0x122E_5EB6_6066_087D,
     0x236F_F7FA_89BA_4AFD, 0x1F54_8F12_0162_451C, 0x5B19_062B_980A_553F, 0x6722_7EC3_10D2_5ADE]
  }

  function Literal6(): seq<bv64> {
    [0x524C_D991_4390_BB37, 0x6E77_A179_CB48_B4D6, 0x2A3A_2840_5220_A4F5, 0x1601_50A8_DAF8_AB14,
     0x2740_F9E4_3324_E994, 0x1B7B_810C_BBFC_E675, 0x5F36_0835_2294_F656, 0x630D_70DD_AA4C_F9B7,
     0x3DB5_5AAC_F12C_7356, 0x018E_2244_79F4_7CB7, 0x45C3_AB7D_E09C_6C94, 0x79F8_D395_6844_6375,
     0x48B9_7AD9_8198_21F5, 0x7482_0231_0940_2E14, 0x30CF_8B08_9028_3E37, 0x0CF4_F3E0_18F0_31D6]
  }

  function Literal7(): seq<bv64> {
    [0x085E_1C3D_753D_46D2, 0x3465_64D5_FDE5_4933, 0x7028_EDEC_648D_5910, 0x4C13_9504_EC55_56F1,
     0x7D52_3C48_0589_1471, 0x4169_44A0_8D51_1B90, 0x0524_CD99_1439_0BB3, 0x391F_B571_9CE1_0452,
     0x67A7_9F00_C781_8EB3, 0x5B9C_E7E8_4F59_8152, 0x1FD1_6ED1_D631_9171, 0x23EA_1639_5EE9_9E90,
     0x12AB_BF75_B735_DC10, 0x2E90_C79D_3FED_D3F1, 0x6ADD_4EA4_A685_C3D2, 0x56E6_364C_2E5D_CC33]
  }

  function Literal8(): seq<bv64> {
    [0x42F0_E1EB_A9EA_3693, 0x7ECB_9903_2132_3972, 0x3A86_103A_B85A_2951, 0x06BD_68D2_3082_26B0,
     0x37FC_C19E_D95E_6430, 0x0BC7_B976_5186_6BD1, 0x4F8A_304F_C8EE_7BF2, 0x73B1_48A7_4036_7413,
     0x2D09_62D6_1B56_FEF2, 0x1132_1A3E_938E_F113, 0x557F_9307_0AE6_E130, 0x6944_EBEF_823E_EED1,
     0x5805_42A3_6BE2_AC51, 0x643E_3A4B_E33A_A3B0, 0x2073_B372_7A52_B393, 0x1C48_CB9A_F28A_BC72]
  }

  function Literal9(): seq<bv64> {
    [0x18E2_2447_9F47_CB76, 0x24D9_5CAF_179F_C497, 0x6094_D596_8EF7_D4B4, 0x5CAF_AD7E_062F_DB55,
     0x6DEE_0432_EFF3_99D5, 0x51D5_7CDA_672B_9634, 0x1598_F5E3_FE43_8617, 0x29A3_8D0B_769B_89F6,
     0x771B_A77A_2DFB_0317, 0x4B20_DF92_A523_0CF6, 0x0F6D_56AB_3C4B_1CD5, 0x3356_2E43_B493_1334,
     0x0217_870F_5D4F_51B4, 0x3E2C_FFE7_D597_5E55, 0x7A61_76DE_4CFF_4E76, 0x465A_0E36_C427_4197]
  }

  function LiteralA(): seq<bv64> {
    [0x7334_A964_9765_A07E, 0x4F0F_D18C_1FBD_AF9F, 0x0B42_58B5_86D5_BFBC, 0x3779_205D_0E0D_B05D,
     0x0638_8911_E7D1_F2DD, 0x3A03_F1F9_6F09_FD3C, 0x7E4E_78C0_F661_ED1F, 0x4275_0028_7EB9_E2FE,
     0x1CCD_2A59_25D9_681F, 0x20F6_52B1_AD01_67FE, 0x64BB_DB88_3469_77DD, 0x5880_A360_BCB1_783C,
     0x69C1_0A2C_556D_3ABC, 0x55FA_72C4_DDB5_355D, 0x11B7_FBFD_44DD_257E, 0x2D8C_8315_CC05_2A9F]
  }

  function LiteralB(): seq<bv64> {
    [0x2926_6CC8_A1C8_5D9B, 0x151D_1420_2910_527A, 0x5150_9D19_B078_4259, 0x6D6B_E5F1_38A0_4DB8,
     0x5C2A_4CBD_D17C_0F38, 0x6011_3455_59A4_00D9, 0x245C_BD6C_C0CC_10FA, 0x1867_C584_4814_1F1B,
     0x46DF_EFF5_1374_95FA, 0x7AE4_971D_9BAC_9A1B, 0x3EA9_1E24_02C4_8A38, 0x0292_66CC_8A1C_85D9,
     0x33D3_CF80_63C0_C759, 0x0FE8_B768_EB18_C8B8, 0x4BA5_3E51_7270_D89B, 0x779E_46B9_FAA8_D77A]
  }

  function LiteralC(): seq<bv64> {
    [0x2178_70F5_D4F5_1B49, 0x1D43_081D_5C2D_14A8, 0x590E_8124_C545_048B, 0x6535_F9CC_4D9D_0B6A,
     0x5474_5080_A441_49EA, 0x684F_2868_2C99_460B, 0x2C02_A151_B5F1_5628, 0x1039_D9B9_3D29_59C9,
     0x4E81_F3C8_6649_D328, 0x72BA_8B20_EE91_DCC9, 0x36F7_0219_77F9_CCEA, 0x0ACC_7AF1_FF21_C30B,
     0x3B8D_D3BD_16FD_818B, 0x07B6_AB55_9E25_8E6A, 0x43FB_226C_074D_9E49, 0x7FC0_5A84_8F95_91A8]
  }

  function LiteralD(): seq<bv64> {
    [0x7B6A_B559_E258_E6AC, 0x4751_CDB1_6A80_E94D, 0x031C_4488_F3E8_F96E, 0x3F27_3C60_7B30_F68F,
     0x0E66_952C_92EC_B40F, 0x325D_EDC4_1A34_BBEE, 0x7610_64FD_835C_ABCD, 0x4A2B_1C15_0B84_A42C,
     0x1493_3664_50E4_2ECD, 0x28A8_4E8C_D83C_212C, 0x6CE5_C7B5_4154_310F, 0x50DE_BF5D_C98C_3EEE,
     0x619F_1611_2050_7C6E, 0x5DA4_6EF9_A888_738F, 0x19E9_E7C0_31E0_63AC, 0x25D2_9F28_B938_6C4D]
  }

  function LiteralE(): seq<bv64> {
    [0x10BC_387A_EA7A_8DA4, 0x2C87_4092_62A2_8245, 0x68CA_C9AB_FBCA_9266, 0x54F1_B143_7312_9D87,
     0x65B0_180F_9ACE_DF07, 0x598B_60E7_1216_D0E6, 0x1DC6_E9DE_8B7E_C0C5, 0x21FD_9136_03A6_CF24,
     0x7F45_BB47_58C6_45C5, 0x437E_C3AF_D01E_4A24, 0x0733_4A96_4976_5A07, 0x3B08_327E_C1AE_55E6,
     0x0A49_9B32_2872_1766, 0x3672_E3DA_A0AA_1887, 0x723F_6AE3_39C2_08A4, 0x4E04_120B_B11A_0745]
  }

  function LiteralF(): seq<bv64> {
    [0x4AAE_FDD6_DCD7_7041, 0x7695_853E_540F_7FA0, 0x32D8_0C07_CD67_6F83, 0x0EE3_74EF_45BF_6062,
     0x3FA2_DDA3_AC63_22E2, 0x0399_A54B_24BB_2D03, 0x47D4_2C72_BDD3_3D20, 0x7BEF_549A_350B_32C1,
     0x2557_7EEB_6E6B_B820, 0x196C_0603_E6B3_B7C1, 0x5D21_8F3A_7FDB_A7E2, 0x611A_F7D2_F703_A803,
     0x505B_5E9E_1EDF_EA83, 0x6C60_2676_9607_E562, 0x282D_AF4F_0F6F_F541, 0x1416_D7A7_87B7_FAA0]
  }

  function Row(r: nat): seq<bv64>
    requires r < 16
  {
    if r == 0 then Literal0() else if r == 1 then Literal1() else if r == 2 then Literal2()
        else if r == 3 then Literal3()
    else if r == 4 then Literal4() else if r == 5 then Literal5() else if r == 6 then Literal6()
        else if r == 7 then Literal7()
    else if r == 8 then Literal8() else if r == 9 then Literal9() else if r == 10 then LiteralA()
        else if r == 11 then LiteralB()
    else if r == 12 then LiteralC() else if r == 13 then LiteralD() else if r == 14 then LiteralE() else LiteralF()
  }

  function Entry(i: nat): bv64
    requires i < 256
  {
    var row := Row(i / 16);
    if i % 16 < |row| then row[i % 16] else 0
  }

  const LOADER_TABLE: seq<nat> := seq(256, i requires 0 <= i < 256 => Nat(Entry(i)))

  lemma CancelWords(x: bv64, y: bv64, p: bv64)
    ensures (x ^ p) ^ (y ^ p) == x ^ y && (x ^ p) ^ y == (x ^ y) ^ p && x ^ (y ^ p) == (x ^ y) ^ p
  {
  }

  lemma Cancel(x: bv64, y: bv64, p: bv64)
    ensures Both(Both(x, p), Both(y, p)) == Both(x, y)
    ensures Both(Both(x, p), y) == Both(Both(x, y), p) && Both(x, Both(y, p)) == Both(Both(x, y), p)
  {
    CancelWords(x, y, p);
  }

  lemma ShiftXor(a: bv64, b: bv64)
    ensures Shift(Both(a, b)) == Both(Shift(a), Shift(b))
  {
    hide Both, Half, Odd;
    HalvesXor(a, b);
    Cancel(Half(a), Half(b), POLY_WORD);
  }

  /** Eight shifts are linear too. */
  lemma EightXor(a: bv64, b: bv64)
    ensures Eight(Both(a, b)) == Both(Eight(a), Eight(b))
  {
    hide Shift, Both;
    var a1, b1 := Shift(a), Shift(b);
    var a2, b2 := Shift(a1), Shift(b1);
    var a3, b3 := Shift(a2), Shift(b2);
    var a4, b4 := Shift(a3), Shift(b3);
    var a5, b5 := Shift(a4), Shift(b4);
    var a6, b6 := Shift(a5), Shift(b5);
    var a7, b7 := Shift(a6), Shift(b6);
    ShiftXor(a, b);
    ShiftXor(a1, b1);
    ShiftXor(a2, b2);
    ShiftXor(a3, b3);
    ShiftXor(a4, b4);
    ShiftXor(a5, b5);
    ShiftXor(a6, b6);
    ShiftXor(a7, b7);
  }

  /** A row is its first entry, with the first row's entries on top. */
  predicate RowIs(first: bv64, row: seq<bv64>) {
    && |row| == 16 && row[0] == Eight(first)
    && forall j {:trigger row[j]} :: 0 <= j < 16 ==> row[j] == row[0] ^ Literal0()[j]
  }

  /** The first entry of every row. */
  lemma FirstEights()
    ensures Eight(0x00) == 0x0000_0000_0000_0000 && Eight(0x10) == 0x5A12_C5AC_36AD_FDE5
      && Eight(0x20) == 0x31C4_488F_3E8F_96ED && Eight(0x30) == 0x6BD6_8D23_0822_6B08
    ensures Eight(0x40) == 0x6388_911E_7D1F_2DDA && Eight(0x50) == 0x399A_54B2_4BB2_D03F
      && Eight(0x60) == 0x524C_D991_4390_BB37 && Eight(0x70) == 0x085E_1C3D_753D_46D2
    ensures Eight(0x80) == 0x42F0_E1EB_A9EA_3693 && Eight(0x90) == 0x18E2_2447_9F47_CB76
      && Eight(0xA0) == 0x7334_A964_9765_A07E && Eight(0xB0) == 0x2926_6CC8_A1C8_5D9B
    ensures Eight(0xC0) == 0x2178_70F5_D4F5_1B49 && Eight(0xD0) == 0x7B6A_B559_E258_E6AC
      && Eight(0xE0) == 0x10BC_387A_EA7A_8DA4 && Eight(0xF0) == 0x4AAE_FDD6_DCD7_7041
  {
  }

  lemma ZeroWord(w: bv64)
    ensures 0 ^ w == w
  {
  }

  lemma Row0()
    ensures RowIs(0x00, Literal0())
  {
    FirstEights();
    hide Eight;
    var row := Literal0();
    assert |row| == 16 && row[0] == 0;
    hide Literal0;
    forall j {:trigger row[j]} | 0 <= j < 16 ensures row[j] == row[0] ^ row[j] { ZeroWord(row[j]); }
  }

  lemma Row1()
    ensures RowIs(0x10, Literal1())
  {
    hide Eight;
    FirstEights();
    var row, low := Literal1(), Literal0();
    assert row[0] == row[0] ^ low[0] && row[1] == row[0] ^ low[1] && row[2] == row[0] ^ low[2]
      && row[3] == row[0] ^ low[3];
    assert row[4] == row[0] ^ low[4] && row[5] == row[0] ^ low[5] && row[6] == row[0] ^ low[6]
      && row[7] == row[0] ^ low[7];
    assert row[8] == row[0] ^ low[8] && row[9] == row[0] ^ low[9] && row[10] == row[0] ^ low[10]
      && row[11] == row[0] ^ low[11];
    assert row[12] == row[0] ^ low[12] && row[13] == row[0] ^ low[13] && row[14] == row[0] ^ low[14]
      && row[15] == row[0] ^ low[15];
  }

  lemma Row2()
    ensures RowIs(0x20, Literal2())
  {
    hide Eight;
    FirstEights();
    var row, low := Literal2(), Literal0();
    assert row[0] == row[0] ^ low[0] && row[1] == row[0] ^ low[1] && row[2] == row[0] ^ low[2]
      && row[3] == row[0] ^ low[3];
    assert row[4] == row[0] ^ low[4] && row[5] == row[0] ^ low[5] && row[6] == row[0] ^ low[6]
      && row[7] == row[0] ^ low[7];
    assert row[8] == row[0] ^ low[8] && row[9] == row[0] ^ low[9] && row[10] == row[0] ^ low[10]
      && row[11] == row[0] ^ low[11];
    assert row[12] == row[0] ^ low[12] && row[13] == row[0] ^ low[13] && row[14] == row[0] ^ low[14]
      && row[15] == row[0] ^ low[15];
  }

  lemma Row3()
    ensures RowIs(0x30, Literal3())
  {
    hide Eight;
    FirstEights();
    var row, low := Literal3(), Literal0();
    assert row[0] == row[0] ^ low[0] && row[1] == row[0] ^ low[1] && row[2] == row[0] ^ low[2]
      && row[3] == row[0] ^ low[3];
    assert row[4] == row[0] ^ low[4] && row[5] == row[0] ^ low[5] && row[6] == row[0] ^ low[6]
      && row[7] == row[0] ^ low[7];
    assert row[8] == row[0] ^ low[8] && row[9] == row[0] ^ low[9] && row[10] == row[0] ^ low[10]
      && row[11] == row[0] ^ low[11];
    assert row[12] == row[0] ^ low[12] && row[13] == row[0] ^ low[13] && row[14] == row[0] ^ low[14]
      && row[15] == row[0] ^ low[15];
  }

  lemma Row4()
    ensures RowIs(0x40, Literal4())
  {
    hide Eight;
    FirstEights();
    var row, low := Literal4(), Literal0();
    assert row[0] == row[0] ^ low[0] && row[1] == row[0] ^ low[1] && row[2] == row[0] ^ low[2]
      && row[3] == row[0] ^ low[3];
    assert row[4] == row[0] ^ low[4] && row[5] == row[0] ^ low[5] && row[6] == row[0] ^ low[6]
      && row[7] == row[0] ^ low[7];
    assert row[8] == row[0] ^ low[8] && row[9] == row[0] ^ low[9] && row[10] == row[0] ^ low[10]
      && row[11] == row[0] ^ low[11];
    assert row[12] == row[0] ^ low[12] && row[13] == row[0] ^ low[13] && row[14] == row[0] ^ low[14]
      && row[15] == row[0] ^ low[15];
  }

  lemma Row5()
    ensures RowIs(0x50, Literal5())
  {
    hide Eight;
    FirstEights();
    var row, low := Literal5(), Literal0();
    assert row[0] == row[0] ^ low[0] && row[1] == row[0] ^ low[1] && row[2] == row[0] ^ low[2]
      && row[3] == row[0] ^ low[3];
    assert row[4] == row[0] ^ low[4] && row[5] == row[0] ^ low[5] && row[6] == row[0] ^ low[6]
      && row[7] == row[0] ^ low[7];
    assert row[8] == row[0] ^ low[8] && row[9] == row[0] ^ low[9] && row[10] == row[0] ^ low[10]
      && row[11] == row[0] ^ low[11];
    assert row[12] == row[0] ^ low[12] && row[13] == row[0] ^ low[13] && row[14] == row[0] ^ low[14]
      && row[15] == row[0] ^ low[15];
  }

  lemma Row6()
    ensures RowIs(0x60, Literal6())
  {
    hide Eight;
    FirstEights();
    var row, low := Literal6(), Literal0();
    assert row[0] == row[0] ^ low[0] && row[1] == row[0] ^ low[1] && row[2] == row[0] ^ low[2]
      && row[3] == row[0] ^ low[3];
    assert row[4] == row[0] ^ low[4] && row[5] == row[0] ^ low[5] && row[6] == row[0] ^ low[6]
      && row[7] == row[0] ^ low[7];
    assert row[8] == row[0] ^ low[8] && row[9] == row[0] ^ low[9] && row[10] == row[0] ^ low[10]
      && row[11] == row[0] ^ low[11];
    assert row[12] == row[0] ^ low[12] && row[13] == row[0] ^ low[13] && row[14] == row[0] ^ low[14]
      && row[15] == row[0] ^ low[15];
  }

  lemma Row7()
    ensures RowIs(0x70, Literal7())
  {
    hide Eight;
    FirstEights();
    var row, low := Literal7(), Literal0();
    assert row[0] == row[0] ^ low[0] && row[1] == row[0] ^ low[1] && row[2] == row[0] ^ low[2]
      && row[3] == row[0] ^ low[3];
    assert row[4] == row[0] ^ low[4] && row[5] == row[0] ^ low[5] && row[6] == row[0] ^ low[6]
      && row[7] == row[0] ^ low[7];
    assert row[8] == row[0] ^ low[8] && row[9] == row[0] ^ low[9] && row[10] == row[0] ^ low[10]
      && row[11] == row[0] ^ low[11];
    assert row[12] == row[0] ^ low[12] && row[13] == row[0] ^ low[13] && row[14] == row[0] ^ low[14]
      && row[15] == row[0] ^ low[15];
  }

  lemma Row8()
    ensures RowIs(0x80, Literal8())
  {
    hide Eight;
    FirstEights();
    var row, low := Literal8(), Literal0();
    assert row[0] == row[0] ^ low[0] && row[1] == row[0] ^ low[1] && row[2] == row[0] ^ low[2]
      && row[3] == row[0] ^ low[3];
    assert row[4] == row[0] ^ low[4] && row[5] == row[0] ^ low[5] && row[6] == row[0] ^ low[6]
      && row[7] == row[0] ^ low[7];
    assert row[8] == row[0] ^ low[8] && row[9] == row[0] ^ low[9] && row[10] == row[0] ^ low[10]
      && row[11] == row[0] ^ low[11];
    assert row[12] == row[0] ^ low[12] && row[13] == row[0] ^ low[13] && row[14] == row[0] ^ low[14]
      && row[15] == row[0] ^ low[15];
  }

  lemma Row9()
    ensures RowIs(0x90, Literal9())
  {
    hide Eight;
    FirstEights();
    var row, low := Literal9(), Literal0();
    assert row[0] == row[0] ^ low[0] && row[1] == row[0] ^ low[1] && row[2] == row[0] ^ low[2]
      && row[3] == row[0] ^ low[3];
    assert row[4] == row[0] ^ low[4] && row[5] == row[0] ^ low[5] && row[6] == row[0] ^ low[6]
      && row[7] == row[0] ^ low[7];
    assert row[8] == row[0] ^ low[8] && row[9] == row[0] ^ low[9] && row[10] == row[0] ^ low[10]
      && row[11] == row[0] ^ low[11];
    assert row[12] == row[0] ^ low[12] && row[13] == row[0] ^ low[13] && row[14] == row[0] ^ low[14]
      && row[15] == row[0] ^ low[15];
  }

  lemma RowA()
    ensures RowIs(0xA0, LiteralA())
  {
    hide Eight;
    FirstEights();
    var row, low := LiteralA(), Literal0();
    assert row[0] == row[0] ^ low[0] && row[1] == row[0] ^ low[1] && row[2] == row[0] ^ low[2]
      && row[3] == row[0] ^ low[3];
    assert row[4] == row[0] ^ low[4] && row[5] == row[0] ^ low[5] && row[6] == row[0] ^ low[6]
      && row[7] == row[0] ^ low[7];
    assert row[8] == row[0] ^ low[8] && row[9] == row[0] ^ low[9] && row[10] == row[0] ^ low[10]
      && row[11] == row[0] ^ low[11];
    assert row[12] == row[0] ^ low[12] && row[13] == row[0] ^ low[13] && row[14] == row[0] ^ low[14]
      && row[15] == row[0] ^ low[15];
  }

  lemma RowB()
    ensures RowIs(0xB0, LiteralB())
  {
    hide Eight;
    FirstEights();
    var row, low := LiteralB(), Literal0();
    assert row[0] == row[0] ^ low[0] && row[1] == row[0] ^ low[1] && row[2] == row[0] ^ low[2]
      && row[3] == row[0] ^ low[3];
    assert row[4] == row[0] ^ low[4] && row[5] == row[0] ^ low[5] && row[6] == row[0] ^ low[6]
      && row[7] == row[0] ^ low[7];
    assert row[8] == row[0] ^ low[8] && row[9] == row[0] ^ low[9] && row[10] == row[0] ^ low[10]
      && row[11] == row[0] ^ low[11];
    assert row[12] == row[0] ^ low[12] && row[13] == row[0] ^ low[13] && row[14] == row[0] ^ low[14]
      && row[15] == row[0] ^ low[15];
  }

  lemma RowC()
    ensures RowIs(0xC0, LiteralC())
  {
    hide Eight;
    FirstEights();
    var row, low := LiteralC(), Literal0();
    assert row[0] == row[0] ^ low[0] && row[1] == row[0] ^ low[1] && row[2] == row[0] ^ low[2]
      && row[3] == row[0] ^ low[3];
    assert row[4] == row[0] ^ low[4] && row[5] == row[0] ^ low[5] && row[6] == row[0] ^ low[6]
      && row[7] == row[0] ^ low[7];
    assert row[8] == row[0] ^ low[8] && row[9] == row[0] ^ low[9] && row[10] == row[0] ^ low[10]
      && row[11] == row[0] ^ low[11];
    assert row[12] == row[0] ^ low[12] && row[13] == row[0] ^ low[13] && row[14] == row[0] ^ low[14]
      && row[15] == row[0] ^ low[15];
  }

  lemma RowD()
    ensures RowIs(0xD0, LiteralD())
  {
    hide Eight;
    FirstEights();
    var row, low := LiteralD(), Literal0();
    assert row[0] == row[0] ^ low[0] && row[1] == row[0] ^ low[1] && row[2] == row[0] ^ low[2]
      && row[3] == row[0] ^ low[3];
    assert row[4] == row[0] ^ low[4] && row[5] == row[0] ^ low[5] && row[6] == row[0] ^ low[6]
      && row[7] == row[0] ^ low[7];
    assert row[8] == row[0] ^ low[8] && row[9] == row[0] ^ low[9] && row[10] == row[0] ^ low[10]
      && row[11] == row[0] ^ low[11];
    assert row[12] == row[0] ^ low[12] && row[13] == row[0] ^ low[13] && row[14] == row[0] ^ low[14]
      && row[15] == row[0] ^ low[15];
  }

  lemma RowE()
    ensures RowIs(0xE0, LiteralE())
  {
    hide Eight;
    FirstEights();
    var row, low := LiteralE(), Literal0();
    assert row[0] == row[0] ^ low[0] && row[1] == row[0] ^ low[1] && row[2] == row[0] ^ low[2]
      && row[3] == row[0] ^ low[3];
    assert row[4] == row[0] ^ low[4] && row[5] == row[0] ^ low[5] && row[6] == row[0] ^ low[6]
      && row[7] == row[0] ^ low[7];
    assert row[8] == row[0] ^ low[8] && row[9] == row[0] ^ low[9] && row[10] == row[0] ^ low[10]
      && row[11] == row[0] ^ low[11];
    assert row[12] == row[0] ^ low[12] && row[13] == row[0] ^ low[13] && row[14] == row[0] ^ low[14]
      && row[15] == row[0] ^ low[15];
  }

  lemma RowF()
    ensures RowIs(0xF0, LiteralF())
  {
    hide Eight;
    FirstEights();
    var row, low := LiteralF(), Literal0();
    assert row[0] == row[0] ^ low[0] && row[1] == row[0] ^ low[1] && row[2] == row[0] ^ low[2]
      && row[3] == row[0] ^ low[3];
    assert row[4] == row[0] ^ low[4] && row[5] == row[0] ^ low[5] && row[6] == row[0] ^ low[6]
      && row[7] == row[0] ^ low[7];
    assert row[8] == row[0] ^ low[8] && row[9] == row[0] ^ low[9] && row[10] == row[0] ^ low[10]
      && row[11] == row[0] ^ low[11];
    assert row[12] == row[0] ^ low[12] && row[13] == row[0] ^ low[13] && row[14] == row[0] ^ low[14]
      && row[15] == row[0] ^ low[15];
  }

  predicate Sixteens(w: bv64) { w & 15 == 0 }
  predicate Small(w: bv64) { w < 16 }

  /** The low four bits of an index count up. */
  lemma NatLow(first: bv64, j: bv64)
    requires Sixteens(first) && Small(j)
    ensures Nat(Both(first, j)) == Nat(first) + Nat(j)
  {
    hide Nat, Both, Quarter, Bit4, Sixteens, Small;
    NatFour(Both(first, j));
    NatFour(first);
    NatFour(j);
    LowBits(first, j);
  }

  lemma LowBits(first: bv64, j: bv64)
    requires Sixteens(first) && Small(j)
    ensures Quarter(Both(first, j)) == Quarter(first) && Quarter(j) == 0 && Nat(0) == 0
    ensures Bit4(first) == 0 && Bit4(Both(first, j)) == Bit4(j)
  {
  }

  function Quarter(w: bv64): bv64 { w >> 4 }

  function Bit4(w: bv64): nat {
    (if w & 1 == 1 then 1 else 0) + (if w & 2 == 2 then 2 else 0) + (if w & 4 == 4 then 4
        else 0) + (if w & 8 == 8 then 8 else 0)
  }

  lemma NatFour(w: bv64)
    ensures Nat(w) == Bit4(w) + 16 * Nat(Quarter(w))
  {
    hide Nat, Half, Odd, Quarter, Bit4;
    NatParts(w);
    NatParts(Half(w));
    NatParts(Half(Half(w)));
    NatParts(Half(Half(Half(w))));
    FourShifts(w);
  }

  lemma FourShifts(w: bv64)
    ensures Half(Half(Half(Half(w)))) == Quarter(w)
    ensures Bit4(w) == (if Odd(w) then 1 else 0) + (if Odd(Half(w)) then 2 else 0)
      + (if Odd(Half(Half(w))) then 4 else 0) + (if Odd(Half(Half(Half(w)))) then 8 else 0)
  {
  }

  // ---- every entry --------------------------------------------------------

  /** Entries of one row, from the value of its first index. */
  lemma RowSteps(first: bv64, row: seq<bv64>, n: nat, j: nat, low: bv64)
    requires RowIs(first, row) && Sixteens(first) && Nat(first) == n && j < 16 && Small(low) && Nat(low) == j
    requires |Literal0()| == 16 && Literal0()[j] == Eight(low)
    ensures |row| == 16 && Nat(row[j]) == Steps(n + j, 8)
  {
    hide Eight, Nat, Both, RowIs, Literal0, Sixteens, Small, Steps;
    var entry := RowEntry(first, row, j);
    EightXor(first, low);
    EightIsSteps(Both(first, low));
    NatLow(first, low);
  }

  lemma RowEntry(first: bv64, row: seq<bv64>, j: nat) returns (entry: bv64)
    requires RowIs(first, row) && j < 16 && |Literal0()| == 16
    ensures |row| == 16 && entry == row[j] == Both(Eight(first), Literal0()[j])
  {
    hide Eight, Literal0;
    entry := row[j];
  }

  lemma SmallEight()
    ensures Eight(0) == 0x0000_0000_0000_0000 && Eight(1) == 0x3C3B_78E8_88D8_0FE1 && Eight(2) == 0x7876_F1D1_11B0_1FC2
      && Eight(3) == 0x444D_8939_9968_1023
    ensures Eight(4) == 0x750C_2075_70B4_52A3 && Eight(5) == 0x4937_589D_F86C_5D42 && Eight(6) == 0x0D7A_D1A4_6104_4D61
      && Eight(7) == 0x3141_A94C_E9DC_4280
    ensures Eight(8) == 0x6FF9_833D_B2BC_C861 && Eight(9) == 0x53C2_FBD5_3A64_C780
      && Eight(10) == 0x178F_72EC_A30C_D7A3 && Eight(11) == 0x2BB4_0A04_2BD4_D842
    ensures Eight(12) == 0x1AF5_A348_C208_9AC2 && Eight(13) == 0x26CE_DBA0_4AD0_9523
      && Eight(14) == 0x6283_5299_D3B8_8500 && Eight(15) == 0x5EB8_2A71_5B60_8AE1
  {
  }

  /** The word for a small number. */
  function Word(j: nat): bv64
    requires j < 16
  {
    if j == 0 then 0 else if j == 1 then 1 else if j == 2 then 2 else if j == 3 then 3
    else if j == 4 then 4 else if j == 5 then 5 else if j == 6 then 6 else if j == 7 then 7
    else if j == 8 then 8 else if j == 9 then 9 else if j == 10 then 10 else if j == 11 then 11
    else if j == 12 then 12 else if j == 13 then 13 else if j == 14 then 14 else 15
  }

  lemma WordValue(j: nat)
    requires j < 16
    ensures Small(Word(j)) && Nat(Word(j)) == j
  {
    NatFour(Word(j));
  }

  lemma FirstRowAt(j: nat)
    requires j < 16
    ensures |Literal0()| == 16 && Literal0()[j] == Eight(Word(j))
  {
    hide Eight;
    SmallEight();
    var row := Literal0();
    if j < 8 {
      assert row[0] == Eight(0) && row[1] == Eight(1) && row[2] == Eight(2) && row[3] == Eight(3);
      assert row[4] == Eight(4) && row[5] == Eight(5) && row[6] == Eight(6) && row[7] == Eight(7);
    } else {
      assert row[8] == Eight(8) && row[9] == Eight(9) && row[10] == Eight(10) && row[11] == Eight(11);
      assert row[12] == Eight(12) && row[13] == Eight(13) && row[14] == Eight(14) && row[15] == Eight(15);
    }
  }

  /** All sixteen rows. */
  lemma RowAt(r: nat)
    requires r < 16
    ensures RowIs(First(r), Row(r))
  {
    hide RowIs, Literal0, Literal1, Literal2, Literal3, Literal4, Literal5, Literal6, Literal7;
    hide Literal8, Literal9, LiteralA, LiteralB, LiteralC, LiteralD, LiteralE, LiteralF;
    Row0();
    Row1();
    Row2();
    Row3();
    Row4();
    Row5();
    Row6();
    Row7();
    Row8();
    Row9();
    RowA();
    RowB();
    RowC();
    RowD();
    RowE();
    RowF();
  }

  function First(r: nat): bv64
    requires r < 16
  {
    if r == 0 then 0 else if r == 1 then 0x10 else if r == 2 then 0x20 else if r == 3 then 0x30
    else if r == 4 then 0x40 else if r == 5 then 0x50 else if r == 6 then 0x60 else if r == 7 then 0x70
    else if r == 8 then 0x80 else if r == 9 then 0x90 else if r == 10 then 0xA0 else if r == 11 then 0xB0
    else if r == 12 then 0xC0 else if r == 13 then 0xD0 else if r == 14 then 0xE0 else 0xF0
  }

  lemma FirstValue(r: nat)
    requires r < 16
    ensures Sixteens(First(r)) && Nat(First(r)) == 16 * r
  {
    NatFour(First(r));
    FirstQuarter(r);
    WordValue(r);
  }

  lemma FirstQuarter(r: nat)
    requires r < 16
    ensures Quarter(First(r)) == Word(r) && Bit4(First(r)) == 0 && Sixteens(First(r))
  {
  }

  /** The values of the loader's literals are the table the checksum loop needs. */
  lemma LoaderTable()
    ensures IsTable(LOADER_TABLE)
  {
    hide Steps, Nat, Eight, RowIs, Word, First, Row, Literal0, Sixteens, Small;
    forall i: nat {:trigger LOADER_TABLE[i]} | i < 256 ensures LOADER_TABLE[i] == Steps(i, 8) {
      var r, j := i / 16, i % 16;
      RowAt(r);
      FirstRowAt(j);
      FirstValue(r);
      WordValue(j);
      RowSteps(First(r), Row(r), 16 * r, j, Word(j));
    }
  }
}
