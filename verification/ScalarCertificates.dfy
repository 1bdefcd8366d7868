/** The half-order power of 5 in the scalar field, square and multiply along the bits of (q - 1) / 2: every
    number on the way, with the quotient of its reduction. */
module ScalarCertificates {
  import opened Bits
  import opened RawField

  /** A number, the next bit of the exponent, and the quotient of the square, or of five times the square, by q. */
  datatype Walk = Last(number: nat) | Step(number: nat, bit: bool, quotient: nat, rest: Walk)

  /** Every number is the reduction of the square of the one before, times five where the bit is set. */
  predicate Checks(w: Walk) {
    match w
    case Last(_) => true
    case Step(x, bit, k, rest) =>
      x * x * (if bit then 5 else 1) == SCALAR_MODULUS * k + rest.number && rest.number < SCALAR_MODULUS && Checks(rest)
  }

  function Length(w: Walk): nat {
    match w case Last(_) => 0 case Step(_, _, _, rest) => 1 + Length(rest)
  }

  /** The bits of a walk as a number. */
  function BitsOf(w: Walk): nat {
    match w case Last(_) => 0 case Step(_, bit, _, rest) => (if bit then Exp2(Length(rest)) else 0) + BitsOf(rest)
  }

  function LastNumber(w: Walk): nat {
    match w case Last(x) => x case Step(_, _, _, rest) => LastNumber(rest)
  }

  /** Walk w, of the n bits of the number v, leads from x to y. */
  ghost predicate Leads(w: Walk, n: nat, v: nat, x: nat, y: nat) {
    Checks(w) && Length(w) == n && BitsOf(w) == v && w.number == x && LastNumber(w) == y
  }

  // Where each walk ends: the exponent and the number.
  const EXPONENT_1: nat := 0x18
  const EXPONENT_2: nat := 0x1832
  const EXPONENT_3: nat := 0x18_3227
  const EXPONENT_4: nat := 0x1832_2739
  const EXPONENT_5: nat := 0x18_3227_3970
  const EXPONENT_6: nat := 0x1832_2739_7098
  const EXPONENT_7: nat := 0x18_3227_3970_98D0
  const EXPONENT_8: nat := 0x1832_2739_7098_D014
  const EXPONENT_9: nat := 0x18_3227_3970_98D0_14DC
  const EXPONENT_10: nat := 0x1832_2739_7098_D014_DC28
  const EXPONENT_11: nat := 0x18_3227_3970_98D0_14DC_2822
  const EXPONENT_12: nat := 0x1832_2739_7098_D014_DC28_22DB
  const EXPONENT_13: nat := 0x18_3227_3970_98D0_14DC_2822_DB40
  const EXPONENT_14: nat := 0x1832_2739_7098_D014_DC28_22DB_40C0
  const EXPONENT_15: nat := 0x18_3227_3970_98D0_14DC_2822_DB40_C0AC
  const EXPONENT_16: nat := 0x1832_2739_7098_D014_DC28_22DB_40C0_AC2E
  const EXPONENT_17: nat := 0x18_3227_3970_98D0_14DC_2822_DB40_C0AC_2E94
  const EXPONENT_18: nat := 0x1832_2739_7098_D014_DC28_22DB_40C0_AC2E_9419
  const EXPONENT_19: nat := 0x18_3227_3970_98D0_14DC_2822_DB40_C0AC_2E94_19F4
  const EXPONENT_20: nat := 0x1832_2739_7098_D014_DC28_22DB_40C0_AC2E_9419_F424
  const EXPONENT_21: nat := 0x18_3227_3970_98D0_14DC_2822_DB40_C0AC_2E94_19F4_243C
  const EXPONENT_22: nat := 0x1832_2739_7098_D014_DC28_22DB_40C0_AC2E_9419_F424_3CDC
  const EXPONENT_23: nat := 0x18_3227_3970_98D0_14DC_2822_DB40_C0AC_2E94_19F4_243C_DCB8
  const EXPONENT_24: nat := 0x1832_2739_7098_D014_DC28_22DB_40C0_AC2E_9419_F424_3CDC_B848
  const EXPONENT_25: nat := 0x18_3227_3970_98D0_14DC_2822_DB40_C0AC_2E94_19F4_243C_DCB8_48A1
  const EXPONENT_26: nat := 0x1832_2739_7098_D014_DC28_22DB_40C0_AC2E_9419_F424_3CDC_B848_A1F0
  const EXPONENT_27: nat := 0x18_3227_3970_98D0_14DC_2822_DB40_C0AC_2E94_19F4_243C_DCB8_48A1_F0FA
  const EXPONENT_28: nat := 0x1832_2739_7098_D014_DC28_22DB_40C0_AC2E_9419_F424_3CDC_B848_A1F0_FAC9
  const EXPONENT_29: nat := 0x18_3227_3970_98D0_14DC_2822_DB40_C0AC_2E94_19F4_243C_DCB8_48A1_F0FA_C9F8
  const EXPONENT_30: nat := 0x1832_2739_7098_D014_DC28_22DB_40C0_AC2E_9419_F424_3CDC_B848_A1F0_FAC9_F800
  const EXPONENT_31: nat := 0x18_3227_3970_98D0_14DC_2822_DB40_C0AC_2E94_19F4_243C_DCB8_48A1_F0FA_C9F8_0000
  const EXPONENT_32: nat := 0x1832_2739_7098_D014_DC28_22DB_40C0_AC2E_9419_F424_3CDC_B848_A1F0_FAC9_F800_0000
  const NUMBER_1: nat := 0xD3_C21B_CECC_EDA1
  const NUMBER_2: nat := 0xFBE_FE72_5555_9CC7_C467_CF3A_70B9_197E_EB39_1AD0_C2F1_C1E0_B197_F20A_243E_9BD5
  const NUMBER_3: nat := 0x1530_B432_61A5_7393_F6D7_A06E_9CD8_8EDE_D7BD_44E2_FF1F_0A5F_EF90_10DE_FD8B_928C
  const NUMBER_4: nat := 0x2036_2DA3_90B3_BF0F_CDFD_5F2E_5602_F691_9670_36F0_559A_B76B_6E88_9F0E_B78B_6E41
  const NUMBER_5: nat := 0x21F7_DC4E_B56A_F6D3_3117_4C01_A004_ADC6_BE66_8A7D_837E_2F48_AE67_712B_16B1_9B69
  const NUMBER_6: nat := 0x1623_8982_3214_2952_3255_81DC_A643_B183_A08E_AEA9_1D50_13B2_67FC_4506_AA75_1962
  const NUMBER_7: nat := 0x54F_AF2B_15DA_85B5_F41F_2E07_5414_5837_E0EA_D3E5_167C_7F89_1647_511C_70B5_DA65
  const NUMBER_8: nat := 0x18EB_E1EB_47EA_9DC2_C5F2_F4D7_D554_CC0B_B9FB_307B_46D5_A934_E6A4_4692_88C6_A15B
  const NUMBER_9: nat := 0x305C_6672_9153_D7A5_4034_C874_253F_CEF8_7FFD_0A1A_0D56_23C7_3803_101E_CEAA_EE96
  const NUMBER_10: nat := 0x1272_76F6_83F8_08B1_2A5F_485A_AF94_AC4A_7AE8_082A_8C5A_E6C5_4FBD_6450_FDCA_C3C5
  const NUMBER_11: nat := 0x29CA_A0C2_57B7_17EA_8FC5_CDE7_E5A7_4956_E0A0_6247_7652_5865_A9D2_6B30_AD22_22CB
  const NUMBER_12: nat := 0x20C0_2898_795C_FE53_FF56_DA09_75C8_372A_CC0C_AA1E_9B3F_4A76_80C4_40DF_28D0_4F03
  const NUMBER_13: nat := 0x2DC_61D9_3888_FD66_51DF_A060_5C55_20DE_C0EE_EDEF_A318_5FF3_1CC4_B753_8DA5_2AA0
  const NUMBER_14: nat := 0x1AB_11C3_3D80_1198_F4CE_7409_D9E2_54B7_9B24_3D31_8F03_FD1E_8AF1_64E8_C3FA_6AE2
  const NUMBER_15: nat := 0x274B_20BC_E672_6BA9_0D72_50C7_765D_8051_A562_ACDD_59B6_EA4B_D9C5_CC9F_59C1_4273
  const NUMBER_16: nat := 0x2A4B_2F58_5D84_FFAA_557D_DA59_EB67_B85F_1EF6_B46B_A7EA_30C0_CC39_87B0_4D6F_10C0
  const NUMBER_17: nat := 0x2506_D6DB_3FF7_B7E4_6F2B_9AE2_4C8F_9566_CF0B_9320_B15A_5B15_1B14_51B9_2453_08BE
  const NUMBER_18: nat := 0x1A9_47D4_78E5_74A7_52B1_6972_97A7_2DE5_AF17_1FDD_ACF3_2981_CB70_1C50_F021_3A4C
  const NUMBER_19: nat := 0x2DC9_F9BF_0FFB_319C_E297_03E3_F87D_B754_BC0A_928D_EE45_4499_18D4_03AC_83C3_A0D4
  const NUMBER_20: nat := 0x1D1A_5E2D_0915_8B0E_83F8_75F6_7760_5449_0FF8_3C80_45FB_6227_143C_52A0_E73A_F04F
  const NUMBER_21: nat := 0x1900_0C9C_1225_9A0C_36AC_49D6_B79E_34EC_2880_6749_D87F_4D75_0610_4138_36E0_F89D
  const NUMBER_22: nat := 0x8E9_CDCC_6CE9_2A24_7E1B_6F9C_8A41_5390_C00D_7B19_2089_AFDD_9449_958A_12E0_6828
  const NUMBER_23: nat := 0x1C7C_A5E8_7A94_0A17_3834_95F1_1871_4DB7_1E76_6E17_AC68_66E7_B958_4BF2_9DA6_8994
  const NUMBER_24: nat := 0x2791_FA99_B165_8953_48D9_E751_7DD4_D52B_11E0_96D9_C94A_7DBA_287E_C249_9FEE_1EC1
  const NUMBER_25: nat := 0x53D_4AB3_FD4F_91C7_F159_688D_C326_6610_CE24_FE52_1AF9_27FE_FF9E_3045_3AE0_CC63
  const NUMBER_26: nat := 0x1ACB_001F_46B2_BAAD_20B7_3E02_ECD6_13E7_10C2_ABC2_3C7F_D865_9241_A0C8_09DD_4C91
  const NUMBER_27: nat := 0x1B7C_74AE_F837_0E2E_DA51_A8C1_FE0C_A5AB_263F_0AFC_9B83_4518_40C4_8E1D_57E1_DC9B
  const NUMBER_28: nat := 0x159_6C75_FD5C_FBC6_FF42_C4B6_E28F_E3E4_3922_FEC0_160A_EE31_8134_C98B_765E_A490
  const NUMBER_29: nat := 0x2A73_4EBB_3263_41EF_A19B_0361_D913_0CD4_7B26_B748_8DC6_D26E_ECCD_4F3E_B878_331A
  const NUMBER_30: nat := 0x1BF8_2DEB_A7D7_4902_C370_8CC6_E70E_61F3_0512_ECA9_5655_210E_276E_5858_CE8F_58E5
  const NUMBER_31: nat := 0xF1D_ED1E_F6E7_2F5B_FFC0_2C0E_DD9B_0675_E830_2A41_FC78_2D75_893A_7FA1_4701_57CE
  const NUMBER_32: nat := 0x3064_4E72_E131_A029_B850_45B6_8181_585D_2833_E848_79B9_7091_43E1_F593_F000_0000

  function Walk1(): Walk {
    Step(0x1, true, 0x0,
    Step(0x5, true, 0x0,
    Step(0x7D, false, 0x0,
    Step(0x3D09, false, 0x0,
    Step(0xE8D_4A51, false, 0x0,
    Last(0xD3_C21B_CECC_EDA1))))))
  }

  function Walk2(): Walk {
    Step(0xD3_C21B_CECC_EDA1, false, 0x0,
    Step(0xAF29_8D05_0E43_95D6_9670_B12B_7F41, false, 0x0,
    Step(0x77D9_D58B_62CD_8A51_62E7_F4A7_79F5_080F_1C46_D01A_E478_B23B_E117_8E81, true,
         0x5_CC28_F8AF_672F_C885_B94C_D12B_3CC4_EF0E_CA94_61E7_CFA2_CEC7,
    Step(0x69D_5F4F_1F96_5320_F7B5_312B_8258_8B34_808E_8947_7A35_0024_57E2_4396_FEE4_023E, true,
         0x485_5868_5028_11A7_C5AF_4A01_5822_6FDF_953D_886F_5AC8_10E4_3C8B_E6B4_5EFB_43AB,
    Step(0x1416_D766_8675_4FB3_7AC1_E4F9_9300_8FBD_0251_2EA6_54E8_750C_2034_AC95_714D_DF69, false,
         0x856_FB86_AD9F_5D23_D61D_3139_12F9_CFBF_136B_32FD_81CD_DB5D_0889_F1BC_2BF3_3B01,
    Step(0x10EC_943D_18E2_3468_35B0_52FC_765A_1B3A_0DB3_A8FE_CAA6_5AEF_28E7_2F84_BE2E_DE10, false,
         0x5EB_3D1B_223B_3A0D_B47A_0568_8799_E886_A10D_E784_3068_A151_55D8_D223_ED52_4EF8,
    Step(0x165F_0AA9_3C01_D51B_A9A7_CDF3_C08D_9DBC_6EDF_9C44_84A1_74F5_43E3_CE1F_E10D_7208, true,
         0x33B5_E3AD_0C8E_1B27_C67B_5310_8D94_FF91_4F98_6C81_3493_730D_5A24_C355_54CE_57D9,
    Step(0x6B9_E041_DBEF_AB51_3206_9F4F_FBA2_E410_337D_23D9_86C0_F673_211D_5126_7139_4967, false,
         0xEF_53BA_4C16_0D6F_89AE_DE9A_160D_3295_726F_6E27_A825_0674_FFB1_58B2_4EAB_4B9C,
    Last(0xFBE_FE72_5555_9CC7_C467_CF3A_70B9_197E_EB39_1AD0_C2F1_C1E0_B197_F20A_243E_9BD5)))))))))
  }

  function Walk3(): Walk {
    Step(0xFBE_FE72_5555_9CC7_C467_CF3A_70B9_197E_EB39_1AD0_C2F1_C1E0_B197_F20A_243E_9BD5, false,
         0x51F_A20F_23E6_4D69_9D1E_175B_DD1E_7C1B_7A97_E392_E9F6_A09B_A561_6FF8_C616_E124,
    Step(0x361_6CCC_494F_1119_9A7C_44A0_36D8_93BC_50C3_A416_0468_A996_C794_ED11_3BF0_BE15, false,
         0x3C_7500_FDDE_2AFD_AAE0_8B9D_5B32_E1A4_840A_3711_6DA9_D448_DA6F_A8E7_836C_8028,
    Step(0x1B2F_FD05_036C_290F_D6ED_9C42_7E2F_0E18_98FD_7984_7748_EBB8_E37B_BAC7_9F16_AD91, true,
         0x4C5F_4679_F7C5_817F_86E6_22B4_D54D_8F4A_0FFB_1041_DDFB_162B_5108_C12B_C95C_8D50,
    Step(0xA2F_362F_0666_62F0_347A_524D_9B90_8AAD_33C8_2BD6_DD2C_139B_55D8_629D_41A1_EF55, false,
         0x224_B509_5661_CD55_6AD9_F8FB_4073_D349_DA30_D3ED_46A5_5A70_F818_38D0_244E_7607,
    Step(0x6E3_BF9D_1C7A_977D_11EC_9E32_A854_E918_E70E_9E24_CDB0_4231_42D5_03BE_5E5B_5C32, false,
         0xFB_1BC5_06CB_55E6_C772_9EFB_57B5_AC02_2B63_DC40_2594_842A_B85C_CDB7_5205_0132,
    Step(0x1B32_47C8_F5B9_78F6_DE54_7289_B64F_97C9_CC50_9F8C_A917_2CA9_EE89_35FB_32BA_F892, true,
         0x4C6C_2794_79ED_EDCD_95B7_3BDF_B5BA_CC36_A4B7_A4B4_5F86_8904_0CAF_EBDB_4CA7_21AA,
    Step(0x1B61_82EC_4C57_6412_7623_CAC3_1A4E_EA37_39A3_4036_2658_2B64_9340_A1B7_36E8_DEAA, true,
         0x4D76_7EC6_7DBC_F9B6_0746_8409_8E98_B7F2_11CE_91AA_95D8_DA8D_D97E_011E_9E2E_4BF7,
    Step(0x1E6F_62B1_AEAC_B21C_0C8C_25DC_B835_C310_FACF_4E20_30B6_6EB8_02BA_C5E5_16CA_207D, true,
         0x5FB5_349B_A8C4_0E60_3F62_8742_56CB_B324_0378_E3CD_1E9E_7AAC_B841_DD00_ED65_DEA1,
    Last(0x1530_B432_61A5_7393_F6D7_A06E_9CD8_8EDE_D7BD_44E2_FF1F_0A5F_EF90_10DE_FD8B_928C)))))))))
  }

  function Walk4(): Walk {
    Step(0x1530_B432_61A5_7393_F6D7_A06E_9CD8_8EDE_D7BD_44E2_FF1F_0A5F_EF90_10DE_FD8B_928C, false,
         0x947_6B22_FD34_47B7_D0B9_9F87_BE0C_8B9C_0EA4_7FD1_49E8_F2AE_1AC2_C615_8CB7_6C55,
    Step(0x1A70_77C3_AAD2_CCF0_FCB6_A901_368F_4A65_BCCD_F872_6571_0959_549C_8D1C_F334_903B, false,
         0xE72_041F_99E6_5ABD_D4EF_7798_05CD_503C_CD4D_3023_CA65_85E9_8595_A90A_368E_392F,
    Step(0x1D69_3EC1_9948_B6EF_D1F0_82C9_E937_E2ED_D22B_5940_684E_71DD_68E6_8FDF_A4AC_346A, true,
         0x5960_4258_D67D_3C14_9E95_88A3_CDAF_9F48_A1A9_C148_7204_2EF4_4DB9_E713_6BE9_B4FE,
    Step(0x2C4E_AE73_EAAF_D410_7BFB_13A7_99CF_3024_57D2_75FB_5B4D_1D3C_4945_1DB7_E1EE_7676, true,
         0xCAD6_8EDA_16C6_F7E6_8E1B_500C_D674_844A_93EF_23F5_AD9E_CB9B_6F5F_0841_AF75_F631,
    Step(0x124_D2A0_3EBE_AF54_E7E8_F296_EBA9_1DF9_70BD_5887_220D_AF95_FE91_CD1C_DFA7_01C3, true,
         0x22_9B78_029A_1D11_0119_9D61_E526_25DC_089E_792B_AE68_3385_3675_ADCD_4240_A5EF,
    Step(0xE00_C868_025E_F5D9_3ADF_BE23_F21F_0724_E079_9615_175A_E147_97AB_10C6_CDE0_DEBE, false,
         0x40D_5289_F88E_526E_BD54_CD53_03D1_8C84_FFBE_E120_2613_E478_43C8_E251_89E3_A323,
    Step(0x1100_A241_FAB5_2E3B_8605_2371_A964_297D_51D8_B593_B980_9CAB_A66D_C0CF_806A_71E1, false,
         0x5F9_4C78_D1FD_3081_703D_0680_8040_3955_9E8B_3090_A0BF_0ED8_0534_4944_4F46_5801,
    Step(0x2AB5_DAC0_D05B_99CB_67F7_2B3B_B73B_98DF_0E40_CC89_06D4_C5AE_D9F5_8EA9_41B6_0FC0, true,
         0xBC7A_D06B_DDD2_205D_5B70_F64E_C172_3D4E_12FB_1ED5_DD30_3806_9995_A682_B64C_E1BF,
    Last(0x2036_2DA3_90B3_BF0F_CDFD_5F2E_5602_F691_9670_36F0_559A_B76B_6E88_9F0E_B78B_6E41)))))))))
  }

  function Walk5(): Walk {
    Step(0x2036_2DA3_90B3_BF0F_CDFD_5F2E_5602_F691_9670_36F0_559A_B76B_6E88_9F0E_B78B_6E41, false,
         0x1571_00DE_D9B0_8375_EBF0_0C97_34D8_C4B5_4291_AEC9_112D_883B_81D5_4A3A_FDDA_F523,
    Step(0x2B48_44FD_23DF_B5F5_E9F9_2A25_67E2_8AD2_A4A8_52ED_2253_1101_0CF2_9E89_0A36_F75E, true,
         0xC18F_B7A6_6A5B_1D9B_D03F_547F_B52C_7FC9_D3F1_26A8_F8C7_3453_2700_CE45_BC5B_1140,
    Step(0x1B70_ED16_9070_AAFD_DBE6_3F54_CA30_8624_E7F3_54C4_AE21_5740_9EDE_527D_710D_8F54, true,
         0x4DCD_CF63_CE2C_E6B6_C17F_74F1_9F2A_0E0B_687C_D801_0EF6_D93C_BB54_54F2_DBAF_B7B1,
    Step(0x2ECF_7AA2_2942_9161_BB3C_47E2_8205_2D19_97AB_3BA9_46AE_334E_49D2_D59C_5633_0A1F, true,
         0xE267_673E_6AED_67A5_902B_23AE_E55C_CB18_9D70_3724_2BC7_FE25_B9C7_2F24_4E51_7B99,
    Step(0x173F_CEBB_55EA_62A0_7174_EDF7_6296_7294_9196_542E_0431_3ACD_8AE7_4AEA_9170_B32C, false,
         0xB2B_78C8_ABD0_153D_7C23_9470_60E9_B7C3_2D61_20B6_E290_CDA9_9BEB_51AF_4886_13FB,
    Step(0x14E9_4452_90EB_9EC7_4428_901B_2F8D_8826_E64D_2A98_076D_497F_FF05_2479_8360_7B95, false,
         0x909_4479_24DF_5C36_289A_50A5_BFEE_A00A_15CC_8232_8011_B0FF_A2E1_B7ED_2CF4_2422,
    Step(0x18F9_F8FC_B73A_FA63_F977_D044_1231_91D4_997F_1EB5_6479_B07F_2586_BA5E_5C74_6097, false,
         0xCE4_1E77_FAFA_6A54_3CEA_8ABB_DA8D_DFA7_D32C_ADB5_459E_B519_9566_FD61_B2D7_74D5,
    Step(0x1E87_A05A_CD30_BC20_9FD9_4990_AD88_7090_2A2C_BD1E_6523_F336_677C_4AFF_D272_243C, false,
         0x1342_C7B9_8C34_3B06_F8E1_998C_0CC5_094F_3085_8F02_D31F_43FE_2D50_3E52_13DF_52A7,
    Last(0x21F7_DC4E_B56A_F6D3_3117_4C01_A004_ADC6_BE66_8A7D_837E_2F48_AE67_712B_16B1_9B69)))))))))
  }

  function Walk6(): Walk {
    Step(0x21F7_DC4E_B56A_F6D3_3117_4C01_A004_ADC6_BE66_8A7D_837E_2F48_AE67_712B_16B1_9B69, true,
         0x7737_E818_7BA4_4156_BE59_DB7E_DFA4_0549_F7F1_6D10_178C_1318_D7E7_7BC5_E28C_36AF,
    Step(0x1422_B4C7_D4E7_9619_7A60_91BB_D14F_85C6_7D0D_37DA_EC08_CA65_94E2_BD7E_A527_5EA6, false,
         0x860_D84A_97DC_058D_78E7_906B_CBD0_A7E6_33A4_9752_2B8F_27CE_A60F_80F1_1059_9F1E,
    Step(0x2D1B_C868_74BA_79B9_3628_E81F_25A3_73BC_6A2B_B979_D4E3_8147_AAA6_7320_C538_B486, false,
         0x2A0C_4986_CD03_CA09_5A69_FBD3_4A45_784B_818B_33E1_E6A8_4591_F51E_2115_1C1F_D8C8,
    Step(0x29C8_CECC_B75A_07D1_DE36_26BC_E8FD_B02E_12A2_E4AA_AF7E_AA61_AE10_F8BD_19CC_DD5C, true,
         0xB465_54DE_C866_342E_CEFC_26A8_C58B_2F4E_AD8F_5CA7_CB1F_BC15_6175_78C2_7DE3_04D0,
    Step(0x15EB_DCBC_C4D4_A224_4CDD_C74B_CC2C_97F9_997B_C81E_6594_C37D_E224_A466_0C44_D880, true,
         0x31A6_C6B0_D777_ED84_B242_0349_CFAC_B9A2_CCF2_391A_8996_7755_0327_4311_D063_33D1,
    Step(0x861_253F_038B_2A9C_5C89_3FDF_3EA2_8ADA_8EF0_6E5F_3399_F617_D670_3665_E716_0C2F, false,
         0x173_7376_B0DB_F2BE_0619_7D2C_87D5_9C6F_6770_378A_9FA9_7611_DB21_C472_8977_89D6,
    Step(0x5E0_CF4D_8DE2_7590_7290_1D6B_F386_2865_67B7_859F_22D4_633D_F89C_736B_C130_E6CB, false,
         0xB6_CA1D_55AD_154B_E563_60D8_A9C1_7133_E1DA_85F0_A6B1_77E2_7005_649E_C9DA_24FA,
    Step(0x3E_E4E8_B10F_63C3_A39B_BF50_147F_EC42_2AD3_B527_A3CE_17D8_AECB_B030_4857_3FFF, false,
         0x51BE_2069_98CF_666C_EB7B_D0ED_C8DA_847A_0C1F_8B40_2020_8F82_D3D3_44DC_669F,
    Last(0x1623_8982_3214_2952_3255_81DC_A643_B183_A08E_AEA9_1D50_13B2_67FC_4506_AA75_1962)))))))))
  }

  function Walk7(): Walk {
    Step(0x1623_8982_3214_2952_3255_81DC_A643_B183_A08E_AEA9_1D50_13B2_67FC_4506_AA75_1962, true,
         0x32A4_3B8C_492F_12D8_B89C_9C37_1F00_B96F_BD8F_2433_29A5_CE78_9FE5_10B7_BA12_F5FE,
    Step(0x463_F072_57FE_CA8A_E426_F651_30DC_46BB_92A5_028D_8A9E_53E5_6726_9127_FC66_7996, true,
         0x1FD_D9FE_97CE_0953_2A10_98F9_84DE_8568_974C_18EB_0613_FE5B_53B8_2E74_1239_D3C7,
    Step(0x2702_D12E_490A_DBF8_43D9_8749_90D9_F331_0E78_629A_1745_ECF9_A11A_ED36_8029_DFAD, false,
         0x1F72_DC0F_D490_D73C_6C89_5FED_9521_D94B_F0AE_AE2F_B8F7_5C97_9BB3_B480_ADEE_5FF5,
    Step(0x1EC8_D6B4_C517_A9B2_9B5C_3DE5_AF14_9A1A_E1D8_5AAE_42A8_51BD_2D4F_D45D_0AEA_7AF4, true,
         0x61EB_0894_80F0_C186_B575_5880_1FC9_BA65_58F8_922A_2AF5_BE84_8003_9E81_62C6_6CE9,
    Step(0x17D7_5B0D_5CFC_BF9E_9C50_D0DD_46A3_3B1A_E9B7_BF7B_A6CF_72C9_AAC0_E8E1_82CC_EDE7, false,
         0xBBE_F1CD_AB88_DAE9_361A_73BC_1154_D264_7E43_089C_B413_A8DF_97C2_7DAA_8D52_7348,
    Step(0x1853_03CE_87A9_9CDD_4398_B9DA_8EC1_09E3_D850_A60D_BCBD_3D8A_8F8D_C1A2_93EB_1329, false,
         0xC3A_0682_946B_E662_F64A_E59F_F030_2746_B830_2D8D_A42F_7803_FC49_9C1A_C0A4_0A7A,
    Step(0x2B64_C819_C228_B5AB_05E9_3106_CAA7_8380_1932_EB67_80F4_06BB_16B3_B5C6_2411_1217, false,
         0x26E9_6994_1DA6_6A97_16BD_F294_1383_725F_9748_0C85_6CB0_F07D_3D31_5F85_4173_5DB2,
    Step(0x1605_E644_EA5B_AD52_3B47_F53E_B794_312D_E2F3_5B04_4AF1_6402_1B51_A13B_BEE1_E05F, false,
         0xA05_CCAC_F96D_5034_4B70_9502_8F84_51CB_62B8_0115_27ED_CAFF_5630_E664_7EEE_88DC,
    Last(0x54F_AF2B_15DA_85B5_F41F_2E07_5414_5837_E0EA_D3E5_167C_7F89_1647_511C_70B5_DA65)))))))))
  }

  function Walk8(): Walk {
    Step(0x54F_AF2B_15DA_85B5_F41F_2E07_5414_5837_E0EA_D3E5_167C_7F89_1647_511C_70B5_DA65, false,
         0x95_3B96_B1AF_118B_C25E_D0D8_1A05_C6E8_3046_E1D2_F9B1_3D40_BAF6_70E1_6DB9_E811,
    Step(0x2A55_3BB8_13DA_A7D2_95F6_2B05_ED03_5981_AD5C_A37C_AC8B_EEB3_0503_0F2A_8F68_43C8, false,
         0x2508_5C94_2C40_9510_488F_5E93_F93A_B1EC_9AAA_5EB0_B104_41A7_A4E6_706F_0E65_06C5,
    Step(0x258F_646B_B69B_7F9B_DD15_AAF5_3563_DDE1_D79B_0CC1_7710_DBE7_C525_C0E9_D60D_457B, false,
         0x1D27_25F8_B91B_DD04_DADA_E33D_4371_6D09_FE7A_27FF_F6F8_6AE1_194F_631B_2BE1_502D,
    Step(0x3036_23CF_55BB_89FD_CC91_2E41_30A6_11B4_C89E_5110_E6E5_5586_FDCD_71A3_6978_38EC, true,
         0xF028_BA12_C923_D4D4_3EA9_D2B9_D57A_68CC_E9CB_A1D8_9709_0E9E_5AAE_09BC_5E84_C9C6,
    Step(0x897_7960_989D_56C9_84CB_E641_2FF5_8BBF_532E_5E79_2056_C9A5_C22C_78D3_0B03_B60A, false,
         0x186_8117_3CC2_BE32_18C2_5143_9D8B_2895_9440_09C4_4BA3_38DA_9B46_C2CE_2800_5887,
    Step(0xF81_95B6_8E99_211D_E33B_3630_9BDA_C8E3_D830_95F1_9134_224B_0D56_A7DC_E9AD_DFDD, true,
         0x18D7_DEB6_411E_47EA_13BE_1619_656B_066B_4C64_D0F9_B691_0201_6802_0468_2FDB_7D72,
    Step(0xBEA_624B_B91B_BCFE_BE6D_F32B_4FD7_D925_2D7C_D015_C3A2_EFBD_2960_6ABA_086C_5A7B, false,
         0x2EF_194C_481D_1A48_6247_9C56_FC8D_0446_AEDE_AEFB_D2F0_5E01_9370_39BB_BFE7_02E4,
    Step(0x1A71_BE17_8A1B_237F_4C4C_5CEA_7928_82B9_6BC4_CD78_9859_F37F_25C0_A0E2_A7DB_B435, false,
         0xE73_68BD_C9C4_9C8C_79AB_6537_3292_CA2E_1C9E_C3F6_496E_E558_34CA_C26E_4EC1_F19E,
    Last(0x18EB_E1EB_47EA_9DC2_C5F2_F4D7_D554_CC0B_B9FB_307B_46D5_A934_E6A4_4692_88C6_A15B)))))))))
  }

  function Walk9(): Walk {
    Step(0x18EB_E1EB_47EA_9DC2_C5F2_F4D7_D554_CC0B_B9FB_307B_46D5_A934_E6A4_4692_88C6_A15B, true,
         0x402B_F3B5_1075_9D80_13FD_089C_D11F_43F0_EB0B_2A1E_1E36_AE6F_9125_D682_094E_AEA4,
    Step(0x119D_E6A9_7692_733C_AAFE_E6B3_A7C4_48E3_3668_D388_3426_6282_550A_745D_9F07_4119, true,
         0x2011_08DB_8506_3595_92E4_39A3_4B12_811D_2B31_5DEB_3D6B_662F_CBE9_E2AF_47DD_7352,
    Step(0x1DD4_A19E_D3C7_906F_FC62_7D27_5D21_30CF_E36A_5FFC_5160_7A53_D127_A348_3DBD_12E3, false,
         0x1263_83D5_507A_7CBF_8742_C473_9A78_241A_730D_AC89_7327_2776_C5C3_2EA7_CB77_12D2,
    Step(0x378_2DCB_9850_C273_7AEC_1C97_BCA4_42E8_8885_B946_E65F_2CD8_96FD_BF72_671B_A277, true,
         0x13E_63C0_CDBF_5553_0D00_E50A_6343_3255_02E7_F75D_946F_9212_A2D7_287F_10B5_E03C,
    Step(0x5C1_88D6_CF0D_5B53_8A9F_64F7_669D_35C4_BF8C_1147_E8B3_1C80_D19E_B955_D652_4059, true,
         0x36C_5A2B_FE62_7038_6450_356A_16EF_50ED_6ADC_E47C_01A1_623F_B536_973A_ED4D_96D7,
    Step(0x1938_9727_CF02_8DFF_ED6E_F729_9C11_B5FF_5BE5_DBA7_F987_0D46_F1FD_3272_ECA5_83DE, true,
         0x41B9_5DED_E867_FE7A_D456_2800_8E63_AD09_42B1_1F37_1C06_C8B8_D694_92DE_EFF4_5010,
    Step(0x253E_D14B_16E5_9A29_F37E_F6C2_8A37_4F20_4E30_4610_0BC1_BA89_80DD_D830_E088_7684, false,
         0x1CAA_97F2_F3CE_94B3_4524_AC75_C728_FEB4_F1F2_B70C_D650_1823_0A58_26A6_32D6_4B3E,
    Step(0x2F41_221B_451A_8523_3B0A_4996_6D8A_87DB_2195_F4F0_D5B4_D107_6373_B1DA_D047_A8D2, false,
         0x2E24_CDC0_4FDC_AE57_7F75_EA08_DE8B_36C0_14F2_A312_4C83_6275_45BE_0730_6525_5DAE,
    Last(0x305C_6672_9153_D7A5_4034_C874_253F_CEF8_7FFD_0A1A_0D56_23C7_3803_101E_CEAA_EE96)))))))))
  }

  function Walk10(): Walk {
    Step(0x305C_6672_9153_D7A5_4034_C874_253F_CEF8_7FFD_0A1A_0D56_23C7_3803_101E_CEAA_EE96, false,
         0x3054_7FBC_EFDD_E8AA_C6EA_E6B3_847C_3AB3_4EC4_AD9C_AB32_1D1C_1055_5FD8_69E6_8501,
    Step(0x1E76_0365_91F9_9B08_985E_8B41_AACE_DAC6_C9D0_85A1_1241_F391_2317_6426_CBAC_BAE3, false,
         0x132C_94D8_9133_D9FF_410A_A22E_B5FD_5F29_5369_7BD0_B901_E2F7_8B23_832F_6579_A8C3,
    Step(0x125F_D5BE_E1B2_EAE6_9F94_2FAA_60C3_57E4_8F3E_0870_0451_0475_A817_1FF4_75FC_FC86, true,
         0x22E2_389B_BF41_F744_8BA2_D8A0_CC91_0D51_39A2_46F3_E8BF_B73B_6296_C1B1_04BD_8ECC,
    Step(0xF62_8054_7E94_1A02_4633_3AB4_B255_9E47_2AC6_2D72_8058_4575_DE84_8AA2_CBCA_DFE8, false,
         0x4E4_21BD_739D_5D22_4F58_391E_48CF_B92A_C28F_414B_2347_037E_4DA4_3F28_1F1E_6B6C,
    Step(0x247C_2555_AA85_4651_0BC0_4467_C138_245C_6E6C_5DFB_3F8C_9A4E_FBA2_129E_AED7_96D4, true,
         0x8989_F29A_1CF2_EBC0_66EF_DC33_2954_C72B_84AE_D688_F256_BC0A_850E_A183_08A1_C1E5,
    Step(0x13FA_573A_CD28_0A9A_9754_95D3_0974_9A70_9A6D_8C5F_665E_0A30_9967_0E99_AC27_DBEB, false,
         0x83F_627E_8B32_FBAD_EDF8_E1D5_5882_84B4_0888_35DF_1B25_378D_A80A_D2D7_A502_0A4A,
    Step(0x1D59_A3D1_9612_3CB7_63DA_6C49_C021_E42B_1D24_3DA7_9A71_98C8_84C6_B1A3_8183_DF6F, false,
         0x11CD_1A4A_EC32_CD13_5D57_6467_6D5C_969B_C3C5_E6A4_A35A_FF79_703D_6FAF_6993_0FA5,
    Step(0x4C0_B8E0_46E9_7801_A611_5A84_A859_7A96_C5AE_0A98_6931_D79F_7278_FD5D_3309_827C, false,
         0x77_8036_1710_AA21_0A9B_5532_CFC1_E8BF_C906_79AE_7194_3EA2_79F5_3047_896F_684B,
    Last(0x1272_76F6_83F8_08B1_2A5F_485A_AF94_AC4A_7AE8_082A_8C5A_E6C5_4FBD_6450_FDCA_C3C5)))))))))
  }

  function Walk11(): Walk {
    Step(0x1272_76F6_83F8_08B1_2A5F_485A_AF94_AC4A_7AE8_082A_8C5A_E6C5_4FBD_6450_FDCA_C3C5, false,
         0x708_383B_C5AD_8B61_7518_9209_374B_5CAC_3817_497C_1D3B_0495_EB00_8249_406B_2456,
    Step(0x4F5_3533_05BE_5148_E855_FCE3_2A5E_8FE0_B208_8943_4965_447C_19E1_8AF1_0A2E_9143, false,
         0x82_0871_B2F7_84C0_7597_9E4F_1358_8A18_0375_861B_1388_B96C_134D_87D2_FE7E_68D4,
    Step(0x188B_EA27_D466_1DB8_CED3_C871_FB62_1226_D44C_71E3_5A65_D9FA_3156_4822_0402_8EB5, true,
         0x3E41_7134_5CDA_748A_16E7_A1BA_A793_5375_1F7C_5B80_D781_961A_3AEB_C011_C860_D74B,
    Step(0xE3E_4F2D_3961_8668_2FAB_CCCF_1E74_B5F8_0958_59AD_C510_E11B_E0C7_0DD7_E385_A492, false,
         0x431_3C4F_BD80_BEA9_4461_0BFF_D898_43B1_B959_478F_DADC_EBF2_3952_843F_395C_3A56,
    Step(0x924_07D9_6AC3_92F5_F67D_84CB_FC95_61F9_AAD7_CDA3_443C_A592_67EA_C089_7C23_28EE, false,
         0x1BA_0250_C191_B6A8_7BC5_B36E_1AD8_6E33_94FA_047C_8FD5_3727_9EFE_9FDC_9F9C_E949,
    Step(0x1D0E_D10B_ACC5_7CF5_815A_89BF_3BF4_5563_C006_849F_A4FF_F0F1_C329_56BA_B802_53FB, false,
         0x1172_CAD6_1140_C2B0_2A54_8717_C765_7A58_B125_B041_4A86_2213_1AAF_9DA9_6D46_7492,
    Step(0x3D9_3954_09BB_925C_0707_9A07_77BB_BD87_5FBC_A03B_9835_6135_F7FF_B0B1_EE32_4387, true,
         0x187_C461_7FC7_AF12_8ADF_E60D_2F0B_3DC1_FE2E_7EFD_D59D_9BF8_0DAD_046D_545D_A682,
    Step(0x4F9_AD2A_FA87_B0A9_9049_7A5F_9F90_046C_5D4C_3D0C_48C0_CE7B_FB80_A95C_1C5E_0F73, false,
         0x82_F342_BDF8_D1B0_4634_D885_C36A_E18F_AF47_2F05_7EDF_536D_9C42_85BD_B440_8ADE,
    Last(0x29CA_A0C2_57B7_17EA_8FC5_CDE7_E5A7_4956_E0A0_6247_7652_5865_A9D2_6B30_AD22_22CB)))))))))
  }

  function Walk12(): Walk {
    Step(0x29CA_A0C2_57B7_17EA_8FC5_CDE7_E5A7_4956_E0A0_6247_7652_5865_A9D2_6B30_AD22_22CB, true,
         0xB475_0C96_274C_64AA_8693_B884_664B_7A93_D154_A082_183F_9D50_DACA_3A36_D321_8BB9,
    Step(0x2BFA_8613_5902_9BF5_AF1C_1C7C_F21F_ED85_DDA9_AAC7_CFB4_C742_4DCF_8712_E01F_3524, true,
         0xC7D6_DF39_E7AE_D8C2_5B0E_8898_5FA1_28CC_A27D_A81E_616D_D7C8_B2C3_4D8B_7197_E4B3,
    Step(0x5F9_7924_CFCF_212D_72E6_866A_D007_EEF6_851D_9AB1_17A5_27D6_16AA_0394_4F27_BC9D, false,
         0xBC_D492_423A_775F_88CC_1289_87D4_0C40_615B_324D_E892_5F0C_D869_B822_0E26_8A8B,
    Step(0x2A66_B2A6_87F0_4AFC_DBB9_BE3A_F9DF_95EB_ED06_FAE4_3200_53D1_1BC9_E146_8AA6_6DBE, true,
         0xB9C2_B5E9_26E2_B8FF_A46A_42AF_37B4_A4C8_21B1_43A7_32A1_7175_8A25_05D7_7E76_4609,
    Step(0x49B_9CBB_7E9D_8BF6_FB44_F3ED_A5D2_C2BA_8074_B948_C034_085A_1851_886D_D0CA_770B, true,
         0x231_9CBE_F789_565B_98D4_FEC5_41EA_F70B_2727_92B0_C7E4_395D_4CE8_C52E_2B88_4A16,
    Step(0x2F80_B856_7374_64CF_6F8B_11C2_3C23_1A2D_EED3_F957_DC3B_5397_FF7F_516A_FC0B_DA47, false,
         0x2EA1_5090_49B0_BA84_C043_4A02_EBD0_9107_F663_FF89_D9D5_56B9_2524_6F8F_CF6C_D165,
    Step(0x297B_8A4A_9F44_D22A_0528_1535_DD70_60CE_6AC2_4DE8_3727_5685_8649_AD36_C4CA_2E4C, true,
         0xB1CC_90F3_A1A5_1D89_DAA4_D097_F7A9_37A0_893E_07D1_69A8_5468_9AE5_74A6_4902_B739,
    Step(0x431_AB2C_6138_A6DB_FC1F_6532_210D_7C3E_8C80_9E5D_5788_786A_3714_8E00_A08A_4997, true,
         0x1D1_435A_3F30_7359_3E5F_212F_EF9F_34A0_D231_A453_A3C5_F5C6_7D6B_2B6E_D2F1_0452,
    Last(0x20C0_2898_795C_FE53_FF56_DA09_75C8_372A_CC0C_AA1E_9B3F_4A76_80C4_40DF_28D0_4F03)))))))))
  }

  function Walk13(): Walk {
    Step(0x20C0_2898_795C_FE53_FF56_DA09_75C8_372A_CC0C_AA1E_9B3F_4A76_80C4_40DF_28D0_4F03, false,
         0x162A_3B30_8BAB_98B9_5B80_A4FB_F414_ECBD_1C92_2EE1_8D2F_D01D_0A93_5169_D592_4B79,
    Step(0x2D35_6A11_98E6_45AB_A7F5_738F_FD4F_EF5A_3281_8F2C_564F_1337_5D23_4DC5_27B0_8E90, true,
         0xD32C_A027_CFC2_6523_0056_83AE_2E14_A905_88F3_9F00_ABBB_8421_C58B_64E9_BF78_3414,
    Step(0x1230_DD18_9323_F3F0_65BE_7845_ED6C_8152_9630_ABA4_D8F0_F46A_BA9D_68EC_8B7C_20EC, false,
         0x6D6_8D67_A930_B46B_EA41_CC95_24CD_9AF6_1E8C_E8E2_B2D4_5AC2_3A25_2825_6760_C839,
    Step(0x65F_16A0_3CD8_E8BB_BC43_5DC8_3FF7_F667_DC5F_0A60_5D3F_12DE_78BA_117A_597B_1157, false,
         0xD6_C140_12A7_E74D_0FDA_D5C7_476D_F960_3F61_E942_CA3C_56DE_E19B_C40A_CD75_9C0F,
    Step(0x14BA_EBB6_2FE0_4427_0467_928E_47E0_C819_7673_B50A_29C5_9822_E200_E42E_4B51_0F82, false,
         0x8E1_62ED_80D5_9006_D8E4_9AEB_55A3_0AF1_1509_D02D_C2A4_B33A_232F_F609_5BEC_4239,
    Step(0x1D49_1430_EB76_E7B7_7FEF_2643_4813_0990_DB65_FF1C_047D_23F1_2668_B39F_3148_3BCB, false,
         0x11B9_0933_9F5E_BC4C_C1F6_36D6_61D9_8FAC_E17F_73A4_5537_B6F8_EC43_3F55_3804_8BB7,
    Step(0x1D46_5DD9_416E_442D_1413_903E_6213_377F_C9CB_B2B2_1A27_4675_17D4_0409_9E22_A742, false,
         0x11B5_C0F5_3A59_2CBA_D220_861F_A6A8_ED7B_C2CC_3700_C754_F650_FEE5_9EC8_A09E_4F72,
    Step(0x92D_93FA_AFF7_C0C3_371B_FAA8_103B_FF3E_46FA_1D39_DA5F_877A_FB0C_DC10_D230_DD92, false,
         0x1BD_9F8B_3B0D_E65F_C04A_07BC_0A7B_DFD3_1CF2_CCC8_BD2F_8CD0_31AC_20BE_10E0_3CA4,
    Last(0x2DC_61D9_3888_FD66_51DF_A060_5C55_20DE_C0EE_EDEF_A318_5FF3_1CC4_B753_8DA5_2AA0)))))))))
  }

  function Walk14(): Walk {
    Step(0x2DC_61D9_3888_FD66_51DF_A060_5C55_20DE_C0EE_EDEF_A318_5FF3_1CC4_B753_8DA5_2AA0, true,
         0xD8_7CE7_C23E_3785_4750_475D_D719_CAFD_8FCC_AC62_813E_477D_A602_0193_D38E_A2A7,
    Step(0x1B8E_CAE8_7E4F_EA81_0E23_6519_F292_EDD2_2297_393C_5F8D_48F9_EA60_C95F_BB2D_D159, true,
         0x4E77_8805_CFFE_70C8_3D92_53B0_F5C2_260A_3D86_3B96_520F_ADD5_EB3A_93D4_4934_6BF0,
    Step(0x2213_3D39_F681_2A36_7438_15F0_782A_8C16_0762_6CB0_C0C9_C40B_C595_1EA9_2B39_C8C5, false,
         0x17FE_7A67_982E_9FD6_0EB1_F357_4E64_2E3C_4D87_E75E_9DAB_18A8_08C2_96E8_B135_D943,
    Step(0x962_0BB6_87E8_B6E8_3EF4_641F_372B_F731_08B7_D3E4_7CF6_28A0_9556_C386_B1F8_8E56, false,
         0x1D1_BF61_B73C_777C_3F4D_F9A4_41AB_F785_3CCD_9E23_7515_58C9_9D03_5CB6_A9DC_5A64,
    Step(0x1FC3_53BE_8899_2E27_12A1_BC3C_57D9_C30D_379D_EB44_67E5_B80F_4C5E_1F4E_97E7_2A80, false,
         0x14D9_2B2D_0517_C293_99CC_24C3_B274_86D2_0F01_12C2_85E2_C923_42AB_61B4_D098_41E9,
    Step(0xAEF_11DC_E871_8F34_A191_683D_0C3F_7D2B_78C2_CC91_35A5_DBAC_EFC6_7596_7975_FE17, false,
         0x278_6F37_4DCF_5050_E125_66C2_CBF9_2E99_D714_60A0_33A0_A115_A02D_771D_D4B1_9300,
    Step(0x27D8_8AE3_98EE_540C_083D_12B9_EA1D_A57D_5A43_338A_5DD2_FF58_8981_2F9A_2686_1311, false,
         0x20CF_22C3_35B8_0099_66F2_6AFF_A748_3D85_CD30_91F6_28DC_744C_B41C_83B1_AE89_90F7,
    Step(0x211A_C2CA_6E12_F00A_2210_47D5_6A58_EBC5_FB8F_FFAC_A2AE_D59A_CCAE_25E6_C4AD_F62A, false,
         0x16A5_878E_DA88_3BDB_4738_C60A_11F4_03B5_376B_4669_D2C6_23BF_24A7_53CE_4D7E_5402,
    Last(0x1AB_11C3_3D80_1198_F4CE_7409_D9E2_54B7_9B24_3D31_8F03_FD1E_8AF1_64E8_C3FA_6AE2)))))))))
  }

  function Walk15(): Walk {
    Step(0x1AB_11C3_3D80_1198_F4CE_7409_D9E2_54B7_9B24_3D31_8F03_FD1E_8AF1_64E8_C3FA_6AE2, true,
         0x49_9CF2_5111_2FCB_EEA7_DEAA_CDF1_11FD_0B22_7952_9FA3_F95D_28AC_6F80_0961_9FDD,
    Step(0x262E_7A6C_FF35_688E_27F6_DD56_8AEB_FE3D_C11D_767A_1369_C6FB_4DE2_70C7_E8C6_0DB7, false,
         0x1E20_254E_63A0_B5A3_A828_29A2_06D6_8F7B_4D07_2FE8_CC67_BA9F_519D_0675_1900_3CA8,
    Step(0xD14_0A91_16C3_0399_E811_6029_32EE_483A_54AF_3DA1_AF94_077E_5AC8_28CC_4ECF_DC29, true,
         0x11AC_2D89_670F_AD34_51E0_9909_F613_612D_CF67_0D9E_36A2_270C_CF12_8A18_1997_FBEB,
    Step(0x20E4_4659_4542_2844_3D99_650F_E435_8F4D_5D74_BD8F_4875_09A6_F609_802C_689E_7CEA, false,
         0x165B_38D3_9CC7_0428_828B_0BF9_C355_92B9_0378_0E18_024F_6AAA_565A_320E_B6CF_1C67,
    Step(0xE34_C45C_CC9C_DBD3_84B3_C1E1_0DDF_CB8A_61A3_0DE4_6BAA_0333_E23A_D938_46FC_697D, true,
         0x14DA_20EA_0308_D195_A278_6396_2091_E66B_ECD2_1E19_B10A_BF13_037C_367A_3F8A_BBE0,
    Step(0x1A76_65DA_29AC_2009_B2B0_6728_5792_5B51_854D_2610_ED8B_3099_228D_D804_CC44_274D, true,
         0x485A_7E77_721C_CFDC_2C45_BB34_F3DB_1737_8B5D_6DE8_8317_8318_4E57_7F7F_992B_4F0F,
    Step(0x1AC7_5874_CC85_BB1C_19FB_F36E_AEB2_2BFA_91E2_165F_293B_26FB_21A2_6DB3_7187_72BE, false,
         0xED1_8EEA_E03E_D73C_1D95_90AD_03A6_13E3_3857_3CC9_F8D0_EFD0_C4A1_D2D0_758A_E577,
    Step(0xDC9_3123_179A_724A_9760_B645_506B_5A1F_7F6F_D33F_23C2_6ADD_1029_6C64_EE46_DF8D, false,
         0x3ED_663E_8B9E_357E_F4BB_FDC3_6D05_2074_4545_5D97_F962_B4AC_2949_A6AD_3691_B136,
    Last(0x274B_20BC_E672_6BA9_0D72_50C7_765D_8051_A562_ACDD_59B6_EA4B_D9C5_CC9F_59C1_4273)))))))))
  }

  function Walk16(): Walk {
    Step(0x274B_20BC_E672_6BA9_0D72_50C7_765D_8051_A562_ACDD_59B6_EA4B_D9C5_CC9F_59C1_4273, false,
         0x1FE7_DE3F_DB38_A99D_9B9E_07CE_31A0_40EC_9A30_7E28_4073_B5BF_9F72_4CD5_D26C_7F60,
    Step(0xD0E_1D0C_47E5_9063_5F45_C4EC_1473_128C_AEAC_6134_A38B_30B2_0821_BC93_6639_0049, false,
         0x385_A263_C4B6_CCA8_9500_D7C0_3CAF_6A6D_FA5F_D154_827B_45E3_5D18_9D1E_E814_EF4C,
    Step(0x14C1_6FDB_64AC_98FD_3732_44FF_06C3_C658_4E6C_FD8D_D94F_1E1E_1003_A2A7_246D_2585, true,
         0x2C82_DD0D_1B6F_EC20_E827_F3FD_8145_C5FF_8600_7DA7_E0A3_64FD_B6EF_48B9_ED0D_5AE9,
    Step(0x91C_81F9_9021_4D4F_5467_DC1D_8A2F_F909_223A_A642_0110_72F1_234F_CC4E_86BB_3894, false,
         0x1B7_2BED_52EE_A1E5_ECB4_5483_3728_8473_EDC9_1B79_5F58_35F6_BCE2_CE93_2198_518B,
    Step(0x297E_6314_E35A_D6EA_2343_2A3A_0E77_1D80_91AE_1713_46E2_4548_5D75_6D80_3320_C405, true,
         0xB1E4_F925_1467_44AF_4E15_56BB_2E9C_610C_F874_E0EF_602C_B21C_C517_551F_41C1_4598,
    Step(0x1C16_B597_22CF_3FFC_DAC8_8061_DA27_7466_6E89_15D1_9436_EEA3_A36F_C9D4_28F5_02E5, true,
         0x5184_FEB1_80AD_1B87_0E1D_1B56_9D12_698A_9CFD_E462_28E1_7A39_4558_2A6E_DCC2_F56F,
    Step(0x13EE_2928_F546_1FE8_6AA9_D435_1037_A334_D5C3_739D_32ED_0730_58B7_4922_9700_EECE, true,
         0x290A_B347_E1CE_A758_1DE0_E4E8_C902_7B3A_BEFF_DC50_5275_CB45_F864_9EE3_DDDB_7DF2,
    Step(0x2A85_0F10_F145_2924_ACFA_2A63_BD5A_D464_680A_CAF2_6E26_5F6D_137C_C542_AFF6_E6E2, false,
         0x255C_38B1_1C1A_1C21_446B_0005_0A1E_67CC_E353_F599_5B1A_B3AA_2209_F63D_7923_CEC4,
    Last(0x2A4B_2F58_5D84_FFAA_557D_DA59_EB67_B85F_1EF6_B46B_A7EA_30C0_CC39_87B0_4D6F_10C0)))))))))
  }

  function Walk17(): Walk {
    Step(0x2A4B_2F58_5D84_FFAA_557D_DA59_EB67_B85F_1EF6_B46B_A7EA_30C0_CC39_87B0_4D6F_10C0, true,
         0xB8D1_F251_8C75_8D39_F7BF_45D9_0A8F_4704_8673_6DCF_545B_06A1_F8AA_DD1E_CD87_C4F8,
    Step(0xC32_A25F_4B58_61BF_6C4E_9452_BF68_73D3_3087_D4F3_C639_4786_FABA_111F_D873_0B08, false,
         0x313_19C7_F5DE_087C_E780_AB5B_6A66_052D_29A6_709A_91A1_FD1D_AB1C_77C7_7918_001A,
    Step(0x1A8_0041_B311_BCA7_6F0F_216A_EDB6_DFC5_90BA_A0D5_F7D2_F31C_FF98_2972_9091_B026, false,
         0xE_8306_8379_7BE2_AD06_8F71_5AB9_5922_942C_C563_0E42_BEA2_1875_BCE2_5396_84C3,
    Step(0x2E6C_68DB_BAA4_B6DC_7FBA_D9FB_E2F8_22BA_18DD_200E_B5C3_EDA8_933E_9299_A0A9_C0E1, true,
         0xDEAD_0B5A_6772_59C5_D644_04EA_A451_9AC8_7DC0_0909_7FEB_78B3_E9ED_0E40_E3A4_29C9,
    Step(0x1B9F_CEC4_911E_1454_222D_BA11_98BF_1A6F_19EB_44ED_ECC6_F439_865F_CC31_1051_32FC, false,
         0xFC4_E8AA_AE39_5DCA_F6A8_7236_CE64_056C_8AE1_C20B_6E13_532D_A3B3_5BE5_2FB2_D15B,
    Step(0x2FA9_5BA1_95B3_00CE_B041_59B6_A58C_3C37_E3A7_51B9_EB7C_BB2F_77F9_162D_4DEC_96B5, true,
         0xEAB6_2730_65EE_27E3_3A35_7618_F12D_CB75_ED0B_8461_A9EC_F101_8A86_B8E8_45A2_606B,
    Step(0xBAD_9352_8AD8_9C06_5900_E3D5_29BC_7074_6E80_4215_7E78_CB2D_8F21_A0F7_E490_AB72, false,
         0x2D1_7391_ACD6_431D_03B1_A7E1_2B83_FF7D_FE08_D3E2_1382_01EA_1325_CD60_8493_8CBD,
    Step(0xCF5_FDB3_C23F_9E71_E222_3562_3354_59DA_E6BE_679F_6F23_2256_31F7_8647_AE7D_F207, false,
         0x378_AA72_D601_DE19_5A0A_2B2B_45E8_A091_00DF_DA4B_02EF_519F_B090_2ADB_CF54_3373,
    Last(0x2506_D6DB_3FF7_B7E4_6F2B_9AE2_4C8F_9566_CF0B_9320_B15A_5B15_1B14_51B9_2453_08BE)))))))))
  }

  function Walk18(): Walk {
    Step(0x2506_D6DB_3FF7_B7E4_6F2B_9AE2_4C8F_9566_CF0B_9320_B15A_5B15_1B14_51B9_2453_08BE, false,
         0x1C54_AD7F_4A05_73BF_34CE_9D3D_52DC_45AB_1E68_6DB0_D4C2_FEE3_0209_6854_68DF_3C3B,
    Step(0x7F2_7A18_8AEA_9177_0B70_31F6_EF93_F189_2257_3D6C_B520_5AF5_2058_9653_62A1_30C9, false,
         0x14E_1CF9_163D_3734_6207_CFD4_F4F8_EAD2_DEC5_6733_56D5_AA86_2411_48AD_C250_0E58,
    Step(0x2872_9D22_66CF_38F5_1901_096F_AB5A_00E1_8415_B56E_566C_611F_EA9A_3286_07CD_EF79, false,
         0x21CE_C6DB_DA47_AB8F_4D1E_6902_CA8E_8166_4501_5D9A_3428_0EB3_1B89_DA87_DC79_5ED3,
    Step(0xAA2_5AFC_BF0C_7CA4_495A_4815_83C3_A9BB_59A2_0E08_6ED7_D27D_22D2_D9D7_5953_C85E, true,
         0xBAF_372F_BFCA_99D0_6B36_692A_0512_EDA9_E617_2C64_9B61_114A_1377_F61D_96EE_FE8E,
    Step(0x17B4_D260_1ECA_7922_1E9A_8D38_82ED_9FC1_E372_B582_844A_C1C3_6262_4AD7_C5F4_0E06, true,
         0x3A11_10D0_98B8_C2D9_30EC_97C4_12E8_6774_5107_B33C_B1E2_4010_C315_A487_A80B_FB63,
    Step(0x160F_6DAE_FAA4_95EB_E852_12EA_780C_6D8A_4A34_4109_1218_02C5_DA6B_C496_60FB_4D51, false,
         0xA0E_7AE6_4A08_C293_AA98_5C68_4FB3_8E51_0D79_7965_AB63_2645_6911_2FD5_6598_6524,
    Step(0x2E0C_873F_A32F_A9A2_ADF4_5331_0FBB_DCC9_DD2A_1323_60BE_C592_3714_7D46_4E97_6E7D, false,
         0x2BD1_C9D2_2D5B_31FB_ED80_6869_84CA_019F_1E9F_2C01_DDD8_C49C_D2AD_BD73_2AD1_9412,
    Step(0x2C75_4A4F_9A2D_D8F6_6DBA_F07D_AD63_8453_9B78_3EB0_3E06_9C4B_20AD_A6A9_A854_14F7, true,
         0xCC38_A90F_8BB5_96AB_77ED_9AF4_CD9A_5D53_6F34_C507_5D1D_22D9_A696_9D0F_62EC_6549,
    Last(0x1A9_47D4_78E5_74A7_52B1_6972_97A7_2DE5_AF17_1FDD_ACF3_2981_CB70_1C50_F021_3A4C)))))))))
  }

  function Walk19(): Walk {
    Step(0x1A9_47D4_78E5_74A7_52B1_6972_97A7_2DE5_AF17_1FDD_ACF3_2981_CB70_1C50_F021_3A4C, true,
         0x48_FF69_4CF9_008F_1925_4A18_7E13_7329_E798_D686_768A_635B_CB60_DB33_61EB_A606,
    Step(0x153E_159D_F488_B56A_D8C4_BB1E_5873_C697_5FB3_AFB8_8449_ED2A_A5A9_0B4D_E66C_FACA, true,
         0x2E9F_C1B9_045A_FD83_118D_0FB2_A1D3_E672_F1FD_2105_5CA3_446B_1F14_CA15_A786_77BA,
    Step(0x27_238F_526F_D3ED_B755_9273_8310_5267_A69C_4F94_6B8A_E649_4AB0_8897_A115_4D3A, true,
         0x9E46_AF9A_5EAE_8DF6_74E2_3B8C_3AAF_5339_1447_8FA3_6114_58A4_438C_3887_871C,
    Step(0x20B6_A555_5ACB_F0E7_AE7F_8816_AC28_81FB_25A3_095C_3FDD_5384_D414_F15D_1988_2E98, true,
         0x6E92_CFED_FBF6_08C8_1360_BCAD_A8D1_8576_85B7_AEE8_EADB_30AD_F623_9C24_91DE_F928,
    Step(0x1347_8FA8_4347_DCE6_A490_C8ED_E806_3DD4_B42B_70E3_1A6A_7424_204E_9C36_1007_EA18, false,
         0x7AE_59F6_BE9F_D41E_45B9_D6C2_1614_5721_1CB9_7C74_AFE9_EA61_B3E5_409F_9D3B_21EE,
    Step(0x20EC_F0E3_809F_4534_2BC8_E2BA_DC63_E56E_62E7_7CD3_FFB3_8E4C_BC5D_0D88_E624_C052, true,
         0x7003_0B34_F247_C2F7_53A1_8E29_5C88_474A_5CC7_AEC9_8BA8_8E0E_3DC5_BC4D_1209_F7FB,
    Step(0x1A54_4C2B_2E1E_3182_1117_45AF_CF84_46CD_6916_E425_77F5_2746_27F2_F0F8_9BAD_8B59, false,
         0xE53_4C46_9F2C_E09A_B075_1E48_3DA4_91C7_AC6E_98AB_9D9D_8855_9D87_7422_BE37_DD58,
    Step(0x268D_5AF1_B19F_9A86_2982_90FA_8A5A_55CE_77C8_5251_D461_7A7B_8357_53A6_29EB_E799, false,
         0x1EB6_9703_7DC0_0FE7_3A08_3600_F105_E9F3_B887_F40D_69A5_309B_D4FA_F817_52A7_D89D,
    Last(0x2DC9_F9BF_0FFB_319C_E297_03E3_F87D_B754_BC0A_928D_EE45_4499_18D4_03AC_83C3_A0D4)))))))))
  }

  function Walk20(): Walk {
    Step(0x2DC9_F9BF_0FFB_319C_E297_03E3_F87D_B754_BC0A_928D_EE45_4499_18D4_03AC_83C3_A0D4, false,
         0x2B53_7C15_151F_A6AA_170F_E2CC_1DEE_4F41_94BB_FC9D_6EFE_3782_1240_DA75_2EC8_9F1D,
    Step(0x2A1C_D207_877E_B204_2FA9_0297_37B5_BEA7_17CA_DF57_2F30_3C24_CC82_D2B0_0139_1073, false,
         0x24A5_EB4B_9B0C_02F4_83E5_DA8D_8702_4D11_4C82_98A0_8F42_8143_2F93_A755_3E33_B514,
    Step(0x10E5_6470_E68B_2875_6C1F_44C2_5ACF_9AC6_BEA0_04BF_EF07_D6BF_99CB_8965_3C10_DE95, true,
         0x1D7F_1484_7822_3488_407C_604F_9BDA_C08B_965C_C792_DFE1_249C_7632_024C_DF93_8A55,
    Step(0xFDE_FE62_328C_1C7D_6557_DC58_541C_E825_7C0F_1352_4E80_506F_1B17_FD4A_8D2E_4348, false,
         0x534_8A51_AFE9_1CCC_54C2_16DA_C7C0_964B_9D69_0E11_1C4B_3877_5C03_7C3A_2C62_C9E6,
    Step(0x1335_8846_3D14_ADE2_64AF_227C_7F8B_35E1_538C_A8E6_2744_91F4_11CE_0D85_C32B_FA5A, false,
         0x7A0_0319_54BE_A9D4_0D16_FD31_C2A6_230A_195A_1728_40E3_1E71_0416_2460_71D0_3599,
    Step(0xB2E_4665_01F0_6B32_D2D1_3AB1_A845_EB5C_F53A_265A_4169_1AC5_81A6_C1FC_493F_B20B, true,
         0xCEA_97DE_410C_5850_C63F_2AA8_BC26_2C81_1002_DFD9_64B5_9BBF_5383_FD19_1CBC_D5C2,
    Step(0x1656_964C_3DDA_054E_535D_C4F2_93FB_E60A_E2FC_F0AD_75CE_B874_D86E_0D53_F375_A89B, false,
         0xA4F_C444_6FD7_8DEB_60AC_B49D_4F75_16CB_985E_911D_4475_4244_9040_4F25_549F_0D0F,
    Step(0x20E2_44C5_565E_EAFF_6584_B541_D431_6F63_32EE_FD6C_A02A_55C4_688F_60AB_6A1A_C0CA, false,
         0x1658_7EC1_BB5A_1288_BA94_A239_D722_0978_2DCC_9C8D_858B_C078_1255_5F7B_6AFC_AF15,
    Last(0x1D1A_5E2D_0915_8B0E_83F8_75F6_7760_5449_0FF8_3C80_45FB_6227_143C_52A0_E73A_F04F)))))))))
  }

  function Walk21(): Walk {
    Step(0x1D1A_5E2D_0915_8B0E_83F8_75F6_7760_5449_0FF8_3C80_45FB_6227_143C_52A0_E73A_F04F, false,
         0x1180_ACEF_3ABD_52C3_F5C4_1EC3_4EE9_24F8_FEB4_FB65_6920_2492_54BE_A7A8_0F2B_B48E,
    Step(0x152D_A386_46DC_B731_71FD_4981_20DD_2B2C_2A61_455B_0088_9EA4_51D8_3589_2834_83D3, false,
         0x944_BC21_CAAF_A880_57DD_F482_DEBE_B0BC_0D3B_3DEA_4387_3616_9BC6_8782_6569_8157,
    Step(0x209D_2986_9D00_493E_F0F8_C4E3_79F1_942E_4D96_DCEF_41AA_8199_457C_F114_CC30_1E92, true,
         0x6DE6_CD4B_E9C0_EA42_79C3_6E0E_58B5_A120_25B9_22B2_BC3A_4527_4C83_4B79_4B6D_7546,
    Step(0x2DD1_44BD_2546_CE8D_817F_D5E9_78D0_E3E3_14BC_9DB7_1098_3172_D20B_B847_E893_430E, true,
         0xD8E6_73A1_ABBD_6643_C156_91FC_D65B_706F_6DA6_BE6D_8B8B_C8FF_A851_9DE5_4065_2549,
    Step(0x95F_CDF0_D595_9B35_B9B7_2B2E_7622_CB63_999F_AB04_283D_1602_0740_194C_91D0_828B, true,
         0x914_64E7_A498_F883_3606_89AF_DCD2_9ECE_49A5_21C2_EC30_F34B_677A_8475_20C9_69A5,
    Step(0x240C_E757_9A4B_2CE0_CE5E_6297_CF80_B7D5_BCD3_6DE1_AE18_E77F_AA45_B4F6_736D_EBB8, true,
         0x8648_3BCB_27D7_FB5A_3D14_895A_0CE8_66A4_78EC_9106_F79F_4A97_3587_872D_4698_0E69,
    Step(0x17BE_3E90_3112_5D3D_1469_5809_7F68_DD39_E354_EEEE_929D_028A_73BC_B906_BC10_96D7, false,
         0xBA6_4093_E239_4536_1C64_37FD_83F9_9BDD_8CFA_64E2_10B6_898B_49A8_6461_2BB0_0E4C,
    Step(0x1668_6ADF_F412_FA79_C669_3956_2FFD_DDC7_D349_D9A2_D146_FAE3_9F89_CB46_9010_9A45, false,
         0xA60_40F6_189E_3348_1428_A467_A601_A1BA_E985_6B46_5968_5951_6F0E_1954_CEB6_1DFC,
    Last(0x1900_0C9C_1225_9A0C_36AC_49D6_B79E_34EC_2880_6749_D87F_4D75_0610_4138_36E0_F89D)))))))))
  }

  function Walk22(): Walk {
    Step(0x1900_0C9C_1225_9A0C_36AC_49D6_B79E_34EC_2880_6749_D87F_4D75_0610_4138_36E0_F89D, true,
         0x4093_F930_1CD6_C9CA_FC06_76B4_6120_EA9D_A73D_02F3_1184_30EF_E504_B3FE_378B_F34F,
    Step(0x44B_D01F_3F04_D6B3_7E7E_EFB5_0F76_D3B4_52BB_6B38_38F4_653B_1892_A8E9_F966_DE1E, true,
         0x1E8_329D_91C2_1C3C_37D7_782C_DEA2_6CEE_A1EC_B37F_7AEF_51BC_87BB_49FD_1AC4_C46D,
    Step(0x1A6_BEE6_92E7_E295_6E91_5CF7_A1EE_A55B_4E45_2E9A_C9A5_1FD0_FB42_FA6E_445B_7527, false,
         0xE_6D0F_8414_627D_4206_97EC_7B04_716B_6C9C_BEC1_7903_A3EF_7EE6_D393_6172_0EAA,
    Step(0x3051_7CA0_3E33_55C9_AC37_E3B3_C0C9_81E9_44E3_7C2E_743A_33B8_2B92_B17C_75E4_9D47, true,
         0xF139_7A9C_4EDF_5D62_D8EB_53A2_16DF_0A12_3C2E_AEB9_34A4_13BA_5379_9873_B8E1_D015,
    Step(0x1D6A_CC1E_BFAC_663E_3F71_0493_CCC1_D083_174A_FB4A_419D_F11C_8517_A8EA_B897_0060, true,
         0x5969_B1A7_D99D_A321_76A1_E0FB_0F61_9D89_91CB_3714_747B_542C_057C_75F0_3C75_2825,
    Step(0x2C92_F600_EB7A_417C_2B18_109D_A678_68FA_8B6A_B326_5A03_B10E_DA13_BBB7_49CB_8BDB, true,
         0xCD49_9A96_AE13_ACB7_C177_9FB8_E7B7_E00B_EB6A_D6BD_BA2B_614C_FE03_2431_2296_1829,
    Step(0x59E_12AC_1357_35FA_34C9_BB45_82AD_6958_3067_1950_496C_BFF9_F8C2_1821_6C09_AA94, false,
         0xA6_EF9A_CB69_65EE_E7D6_5E46_1437_6597_DFD2_E56D_1C7F_8AF0_1E1E_F2A4_2F58_E81E,
    Step(0x7EE_96BC_DCEE_7234_CB28_A50F_4A02_8D07_28D9_09E1_4275_EEC8_F34F_96F8_00B7_FD72, false,
         0x14C_D65B_DD10_A0DD_9F82_A76E_DA3A_8EB5_5C9F_12F7_02DA_BBD9_D7AE_F74C_0106_1E9C,
    Last(0x8E9_CDCC_6CE9_2A24_7E1B_6F9C_8A41_5390_C00D_7B19_2089_AFDD_9449_958A_12E0_6828)))))))))
  }

  function Walk23(): Walk {
    Step(0x8E9_CDCC_6CE9_2A24_7E1B_6F9C_8A41_5390_C00D_7B19_2089_AFDD_9449_958A_12E0_6828, true,
         0x835_6DCC_87D7_EAA7_AFA9_CC04_4946_C0C2_CF7E_FB3A_302D_E426_D15B_CCEA_8FB5_4B3F,
    Step(0x7A4_1DD3_E5E1_DFFD_6B21_D88B_37EA_7D65_5946_615A_BDC3_D364_CB5D_A4C9_B22D_5401, false,
         0x134_DF0A_E3DB_E595_F820_00EC_2DF9_E3BE_AB99_5C6D_251F_FD4A_08E3_DB3E_98E6_2090,
    Step(0x27D4_4F2C_FEF7_9D3E_41BB_D14E_8ECC_0432_CAD0_7A96_B6CC_33B0_E972_25F4_6F04_8771, true,
         0xA3E8_D45C_052E_1B68_0817_FE38_D85D_C477_5B0C_8C08_3998_B933_D72C_7A01_1790_8064,
    Step(0xBE9_6D34_5B18_E09C_277B_3541_C6E2_BEE2_75B8_B826_B476_312B_88D7_82E7_AE61_5F01, true,
         0xEA9_2318_16C3_25AE_5D44_6388_B4C5_6DA0_5A4C_DAF3_72E4_57B7_5461_D5FB_441A_E904,
    Step(0xB7B_399C_3383_205D_9252_04B9_064F_D461_8B3D_ABC3_DD24_DC5A_E42D_3033_71F7_CD01, true,
         0xD9E_C607_1391_BB89_BFF8_3F30_8A83_4AE9_3AFF_F84B_9081_9E0F_584F_F4E2_CD67_058C,
    Step(0x2840_2CC2_0419_3E8C_0145_CC73_22A0_15B1_5666_EC59_D98C_258D_E61A_10BC_8913_FC79, false,
         0x217A_AA20_FC5D_6883_0CC9_7CF5_D553_BAAF_D0AF_732B_128E_151B_28FD_98D2_7790_9F1F,
    Step(0x194A_9AC0_CB87_EF47_D413_AE43_FDC9_17E8_9729_D36C_6BFA_5306_523C_1FB4_6D63_D212, false,
         0xD37_E079_D6BB_3708_41FE_F17B_A5EE_1F66_C2A0_C0EE_2258_ADAE_6867_AEEB_193A_1703,
    Step(0x2E06_C788_39E0_9A20_CF2A_0A01_E093_23CC_5977_D3F2_D218_E548_495B_B2E8_9113_7241, false,
         0x2BC6_D993_B381_3EB5_A710_6F1C_96FE_9076_99BD_ABBF_7AC8_8E91_17E2_6B6F_FCFD_6AED,
    Last(0x1C7C_A5E8_7A94_0A17_3834_95F1_1871_4DB7_1E76_6E17_AC68_66E7_B958_4BF2_9DA6_8994)))))))))
  }

  function Walk24(): Walk {
    Step(0x1C7C_A5E8_7A94_0A17_3834_95F1_1871_4DB7_1E76_6E17_AC68_66E7_B958_4BF2_9DA6_8994, false,
         0x10C4_FA23_F9AC_B0D4_A8F0_AB5B_CB14_81E8_82A4_E2F4_D4A0_9A46_5BC5_E20F_B49A_FD3C,
    Step(0x1A76_5B3B_27B6_CC50_BEBA_7B9C_0C89_AC35_CC2D_CF15_B3F7_6C2F_1E21_7FFA_4944_C054, true,
         0x485A_4462_EBF6_04E0_2AED_4E87_D8E2_EC9F_7F48_E68B_D8E1_02F0_B127_5B2D_D312_AE63,
    Step(0x199A_122B_07E7_5D6F_3F6B_C308_1BD8_C709_58E9_1FF8_89B4_5156_70FD_948D_9683_DB6D, false,
         0xD8B_7378_81C9_57B2_F38A_EED9_A5BF_4DE6_51C4_11FD_A4CF_221B_DD4E_132C_C470_BC5C,
    Step(0xCF7_6FD5_D4D3_0DE7_A885_6956_95EC_6478_DAAC_1AEF_5385_04EA_8992_8E89_0530_F00D, false,
         0x379_70C2_5581_F497_3435_E717_978F_E9A2_E24F_F232_7396_D064_CFA0_8C44_A3DA_73D2,
    Step(0x23FD_90F4_4472_8FC9_17E8_A5D4_A9CE_9A38_A367_05AE_00A2_9E3B_7F86_7835_E41D_ECD7, true,
         0x85D6_11BA_2F12_DBF9_B85D_D059_2EB7_D2D7_B350_38B2_18D0_84F1_1D56_1919_F0E6_87B3,
    Step(0x1408_A6B1_7F03_E33D_D001_8895_AAA1_5B63_2F38_5411_A755_6CAE_5323_48DB_AA39_0722, false,
         0x84B_378B_F08B_8ABF_D0FA_4156_1B40_A55F_753C_0743_262B_E398_3E4D_EAE5_9EB0_CC7C,
    Step(0x25DF_81BF_ADE5_2F29_6B57_1711_8399_A83E_AACA_A19D_AA9C_D0FF_BEC9_5C8B_76A6_1408, false,
         0x1DA4_07EC_75B2_8F52_FFC0_AD93_1776_80D8_87D8_B89F_726B_1495_9099_FF03_0588_7A52,
    Step(0x14AF_BC7E_14CC_C11C_18A5_B902_131A_B877_B008_DF4D_C317_C39F_9A02_5E1F_7668_C5EE, false,
         0x8D7_D069_A95C_458F_1E51_CB6C_708A_D103_23ED_585C_4B5C_8131_D21F_E49F_627A_0A83,
    Last(0x2791_FA99_B165_8953_48D9_E751_7DD4_D52B_11E0_96D9_C94A_7DBA_287E_C249_9FEE_1EC1)))))))))
  }

  function Walk25(): Walk {
    Step(0x2791_FA99_B165_8953_48D9_E751_7DD4_D52B_11E0_96D9_C94A_7DBA_287E_C249_9FEE_1EC1, true,
         0xA1C8_AAC4_CEC3_96F4_4FEE_E45A_82B8_3894_DA76_2B72_F561_FA0B_71B0_2816_A35A_8C7E,
    Step(0x2107_0825_F2F6_2823_9B7E_286D_5E87_0A6D_40F0_1FDF_2DBA_9E79_DA88_3EA7_EF6A_7707, false,
         0x168A_9160_923E_618E_3F8D_0369_688E_BD02_CF4C_9C3B_F188_B7EA_2256_D104_9D05_AC26,
    Step(0x71B_3163_4970_A966_DF5D_B3BE_5F26_1175_7AF2_75D0_DC81_773A_E4F2_4B6D_9E1D_D60B, true,
         0x537_B870_4FD2_DD64_BD7B_4C65_B21C_8445_E77B_A8CE_4C8F_9EBF_AD97_31F2_9079_C07B,
    Step(0x1E58_F199_0FA1_E6F7_A212_2C29_9D6A_F033_CD5B_61F4_B095_B106_F722_373D_FACC_35E2, false,
         0x1308_0D98_4FA4_C82A_0B74_0EE8_C890_D330_D593_8C95_B247_269D_A13D_D976_58B0_8A2C,
    Step(0xA27_9F57_CC26_4298_502E_1074_C063_2D87_CFD3_A584_75F6_7B04_3B89_7793_BAD6_D158, false,
         0x221_8474_BB54_1D3C_C791_8406_8881_32B0_4A21_7F76_1A4F_6367_6C2F_9CD4_2F7B_AF28,
    Step(0x1731_56AC_712D_F7F6_1FAA_926E_C2BB_7CC8_009E_A233_B86B_D033_0C5E_AA84_DAD5_1F18, false,
         0xB1D_95F9_096C_C8D8_ADEE_7A5D_0F21_EE3D_B824_C5FA_015F_393B_3667_4E96_6772_80C9,
    Step(0x448_5D57_DE79_4BE6_D78C_4021_3A03_BA78_F454_E649_4F8A_E11B_8AB7_A363_CA44_5177, false,
         0x61_0739_C097_F7E6_B2DD_0944_AE3F_2B11_69A0_4046_F035_689D_EDE7_0C62_F79F_9E14,
    Step(0x80C_F1DB_1BF0_CE10_4501_1BCE_3136_8D0A_CC4F_822B_5458_E20B_FFF4_D4C3_7584_E73D, true,
         0x6B2_50C7_8AEE_2CFC_645B_1EF4_9D06_3072_A5AE_733E_DD1F_1444_8B40_060E_9602_EA4A,
    Last(0x53D_4AB3_FD4F_91C7_F159_688D_C326_6610_CE24_FE52_1AF9_27FE_FF9E_3045_3AE0_CC63)))))))))
  }

  function Walk26(): Walk {
    Step(0x53D_4AB3_FD4F_91C7_F159_688D_C326_6610_CE24_FE52_1AF9_27FE_FF9E_3045_3AE0_CC63, true,
         0x2D6_1D19_19CD_2824_EDA7_306C_1767_7989_24FE_A029_A043_995F_6D06_05F5_BDD3_C5D1,
    Step(0x1EA3_F55B_35E5_37F7_431A_A81B_5CBE_0413_318B_F3DB_F328_E28F_FE40_8179_3051_E19C, true,
         0x6100_F7D5_BA47_9407_0A1C_E600_B952_CBCB_675C_1C12_E56F_143A_8CC0_0CF6_BA97_B6F9,
    Step(0xB2D_E547_01FD_CB31_A198_2A49_024D_6005_2006_2554_17F6_7703_D2B8_D6D4_0F22_3C57, true,
         0xCE9_B77F_471A_555B_2E21_498D_4994_9DA8_8B0D_AC3D_FD75_52E0_CC7A_D3C1_157F_1B4D,
    Step(0xDD_FBA0_7E46_32B6_DB6C_E0D0_B311_330E_81A3_F525_CBF8_0BBB_F247_BF27_1F29_6088, true,
         0x13_E366_2AD5_82B2_FDCE_0A70_D122_689C_4F14_A68E_FD57_8226_8E94_D576_8D03_68B2,
    Step(0x1AA7_15E1_E4E4_6CC5_76EF_5E27_52ED_AF13_6D75_2BDB_81BA_0F96_1205_7BB1_92CC_008E, false,
         0xEAD_F04A_A1DB_9FED_47B9_79F6_F9CD_F014_DFF0_87C4_5E81_AFC9_AABE_5DA4_64BD_322C,
    Step(0x2EFC_A827_B124_860A_52D3_AB93_E76E_4281_ED5B_FB2A_028C_D9F7_08D6_E39D_3593_1C98, false,
         0x2D9F_72C9_E6D1_2483_C1E7_95EE_FB94_A9FF_CC55_D7F1_12CB_6629_6222_8193_B780_9578,
    Step(0x1D54_7787_9886_BAB2_0D36_A78B_4C77_12FC_E937_F21C_DFBF_306C_E1F8_2734_9241_04C8, false,
         0x11C6_D474_6FC5_6CD3_E86E_A296_9509_8FD9_F79E_90D1_1C79_6C5B_E84E_F239_A280_78A0,
    Step(0x1101_5129_2720_E057_B7EF_13FC_C854_86BF_3333_B5E2_8146_4C51_486F_5407_EB26_63A0, false,
         0x5F9_C762_D230_3EA4_C07D_BA95_C0D3_2573_EFAA_8963_AA82_A9DC_FB3A_08EC_6067_D76F,
    Last(0x1ACB_001F_46B2_BAAD_20B7_3E02_ECD6_13E7_10C2_ABC2_3C7F_D865_9241_A0C8_09DD_4C91)))))))))
  }

  function Walk27(): Walk {
    Step(0x1ACB_001F_46B2_BAAD_20B7_3E02_ECD6_13E7_10C2_ABC2_3C7F_D865_9241_A0C8_09DD_4C91, true,
         0x4A2C_05AF_049D_3CAA_52D6_59D7_9DB6_5E66_3FBC_A113_F191_C6EA_98ED_0C97_18D9_3D02,
    Step(0x27F6_6FDE_50F5_40B4_A616_E82E_526C_0936_1C1C_D68C_8CEE_FB89_FC65_4E4E_6F68_D5A3, true,
         0xA502_30D9_C00C_1F2D_A7A7_675A_631D_3217_14CC_3A82_9FF6_1CDB_B80D_23B3_68F1_2337,
    Step(0xC60_2679_A43B_F044_F371_70F5_7C18_5CB0_4F12_CD0E_90DB_6E6A_E9E8_E550_2AAA_19B6, true,
         0xFD3_119B_55DC_AF46_DE54_AF52_5C99_6F64_D953_34E7_3513_4F9C_2DAB_34CB_DE83_50CB,
    Step(0x25E0_2F69_081B_61ED_E474_A6F8_2B6A_B742_2938_00D9_C90C_2BA4_AB10_AFF2_32FD_F229, true,
         0x9439_76CC_B804_3278_543F_7E7A_B3C8_39A5_811C_B58F_AB26_ED28_5395_328C_C79F_1CAF,
    Step(0x6AC_A882_9C14_61D5_AAFF_1D2B_F78A_8B76_16A3_169E_22C1_0850_3008_0928_EEEA_9826, true,
         0x49A_558D_0ECD_2BF9_7188_836C_325E_9291_4574_9E08_2838_4BC6_DFD9_07B3_50E3_884F,
    Step(0x2697_3797_C1A7_E370_2A49_D766_81BE_B095_BCC6_70F2_5218_2D48_4490_10EB_6696_33E5, false,
         0x1EC6_4FA1_D3E5_9BE5_F8E9_2733_432A_2CEC_47A5_32A5_2961_818C_7FEA_7796_083C_B0CB,
    Step(0x10E0_0B8E_1537_F537_D429_3BEC_586F_423B_CF48_1E3D_0449_875A_D5E1_C703_FEA4_5A0E, true,
         0x1D6C_6BFD_5068_4657_7CDF_AA2B_884B_506A_2E88_CE24_0451_1F52_8409_EF29_3161_A346,
    Step(0x2274_5AC5_3A23_049A_1023_44A3_D4D4_0622_8E74_D086_E1DD_C11C_979D_E74B_9EB3_988E, false,
         0x1888_01DD_DA9B_6E1B_9D38_6084_82F7_D120_426B_B207_FCD2_11DD_4A5E_3BD3_319B_1229,
    Last(0x1B7C_74AE_F837_0E2E_DA51_A8C1_FE0C_A5AB_263F_0AFC_9B83_4518_40C4_8E1D_57E1_DC9B)))))))))
  }

  function Walk28(): Walk {
    Step(0x1B7C_74AE_F837_0E2E_DA51_A8C1_FE0C_A5AB_263F_0AFC_9B83_4518_40C4_8E1D_57E1_DC9B, true,
         0x4E0F_3E78_FD27_962C_A479_EB57_D705_4EA4_7156_5F05_4099_4D4C_D4F1_9985_51CF_3EF7,
    Step(0x2176_EEC8_460E_7C63_6C53_C3F5_9AC1_C249_8BB3_B643_9F6F_81C3_5C19_B446_8104_9E46, true,
         0x73B5_9E40_6574_386F_EF76_CFE8_F10F_B4DF_20B6_834C_945E_9D8C_683E_C823_3D9C_03EB,
    Step(0x1091_EC3B_02D4_2FF6_A0C4_4ADA_FA02_F573_A11D_A7A3_9ECF_E61F_9213_0A9E_D298_63C9, false,
         0x5AC_7DCD_CE33_3858_4713_CE65_73E2_2872_08A4_3468_76C4_76A9_7E25_B653_375B_BEA1,
    Step(0x2629_03E3_0CFC_35BA_49E8_7671_3792_0234_D738_A060_C6F8_FB07_D54F_FA0B_4239_5530, false,
         0x1E17_8701_4AF4_781B_2450_1EF0_B3A2_5240_0EA1_29B7_833B_2FB8_E0A9_D340_4A33_37AD,
    Step(0x1BE_A7A0_C010_925B_FA61_16B6_1B32_16AC_DC19_E15F_0EB3_FB55_3418_4E1A_5185_B153, true,
         0x50_850A_196E_2D64_7305_DC36_1CF1_ADFF_7A9B_C785_0470_D44E_755D_F335_9F91_5432,
    Step(0x1775_50A3_BB27_3434_3F6A_03DA_75F8_CF7B_4B6E_F06E_CDEA_111F_F4BE_F79A_C5C8_105B, false,
         0xB5F_1DED_1884_D723_5521_6B91_6861_7704_FB74_7C9C_7349_710C_8CE2_8FA5_4224_AC13,
    Step(0x2F30_5C3D_7912_7B16_536D_83A9_0AF4_8DEF_D6EB_FB45_56F4_0979_97CF_DE21_8B16_D446, false,
         0x2E04_11AD_51F1_4CC9_94ED_F271_3BFC_EAA9_8012_0170_E182_69BF_29BD_9333_8093_D352,
    Step(0x282B_9167_655E_CC3E_FBDF_61B7_8D0D_4EEF_01E9_B58E_FF48_6D15_AB57_F332_CF78_2FD2, true,
         0xA6BA_17E8_3D23_A247_906E_DD41_5AB4_B547_7C47_002A_870E_C31E_1665_4465_2AAB_44C4,
    Last(0x159_6C75_FD5C_FBC6_FF42_C4B6_E28F_E3E4_3922_FEC0_160A_EE31_8134_C98B_765E_A490)))))))))
  }

  function Walk29(): Walk {
    Step(0x159_6C75_FD5C_FBC6_FF42_C4B6_E28F_E3E4_3922_FEC0_160A_EE31_8134_C98B_765E_A490, true,
         0x30_2845_CE70_7BDC_FE99_83C4_82BE_E1C0_02DC_6A3C_606A_AA9B_3587_8DA1_996B_A9A5,
    Step(0xB2B_3196_18EA_84F7_6B48_1C37_E4AE_C09E_A0BE_B809_04D5_89E2_A38E_43EE_C840_6B5B, true,
         0xCE3_7A55_D232_8375_F29C_1A22_7028_7D88_5537_4768_54BA_B2A9_4B21_4983_7903_B79F,
    Step(0x2E8F_59F5_0FA5_9C8E_9A14_EEDE_9E7E_4611_BAFE_3623_7FD7_20AC_ADA8_72D2_AB96_441E, true,
         0xDFFC_BE0E_5FC8_4761_4AE6_10D5_1913_EA17_D9EA_72DA_22C2_6DE4_77AA_3A5D_0A7E_AAE1,
    Step(0x1195_E6F9_51EF_C1C5_65D8_3E4F_F70B_15DC_57B7_DBA8_FF1C_065E_AF5F_6358_E3E9_16B3, true,
         0x1FF3_F0F6_50B1_F5DF_BC38_CD3E_2054_F668_0B2B_CA76_CF76_FF3A_A034_1CC7_AF9F_3C65,
    Step(0x12EA_5DF4_F092_AB3A_2813_5B89_14A7_D1B6_A547_E15D_AE65_E432_15F1_8155_7D9F_0968, true,
         0x24F7_F8F7_10DE_3782_AB7E_6488_64F2_F2E5_6A60_47EB_19DC_B842_6749_AC23_CB4F_4950,
    Step(0x2A3C_09F0_A58A_7E85_00E0_A7EB_8EF6_2ABC_402D_111E_4111_2ED4_9BD6_1B6E_725B_19F0, false,
         0x24DC_5538_D98E_E3E5_A6E2_E6A1_3EC4_FD2C_F42A_6150_8081_4A18_CF8D_AC1B_72AE_34BC,
    Step(0x49A_E702_B363_EBE8_5F25_6A9F_6DC6_E364_B482_3532_F643_7DA2_034A_FC45_8092_8C44, false,
         0x70_2FF3_DB39_DD37_3127_47DE_4696_6EC5_3D23_5684_923C_018D_8486_C8A0_FB1B_DFFE,
    Step(0x1067_569A_F1FF_73B2_0113_EFF9_B8D8_9D4A_605B_52B6_3D68_F9AE_1C79_BD57_2F4E_9212, false,
         0x58F_798D_3BF7_4F35_A19F_979C_F21A_C5FB_D025_3BC6_F0A3_FC2B_1536_01D7_D9D8_562A,
    Last(0x2A73_4EBB_3263_41EF_A19B_0361_D913_0CD4_7B26_B748_8DC6_D26E_ECCD_4F3E_B878_331A)))))))))
  }

  function Walk30(): Walk {
    Step(0x2A73_4EBB_3263_41EF_A19B_0361_D913_0CD4_7B26_B748_8DC6_D26E_ECCD_4F3E_B878_331A, false,
         0x253D_0D63_CA46_55E7_B869_C6CF_F21A_0911_244F_D42E_E7C1_C3FC_5E3F_5309_FF68_5A49,
    Step(0xC9F_ABC7_845D_50D2_852E_2A03_71C6_441F_145E_0DB8_2E83_2696_1C25_F1E3_E32B_045B, false,
         0x34B_0757_1A5E_0770_DCF9_46FF_F1E6_B3F4_72B1_C19C_D605_067F_412E_1DCA_ED24_32BC,
    Step(0x210_FE63_5AB4_C74D_6B7B_CF70_BC23_A139_5680_C640_22DD_991F_B54D_4506_AB80_C59D, false,
         0x16_96AD_A3FD_860A_39E1_1D82_CE24_027F_4225_DD2E_64D4_5D94_41C0_6B4C_0171_BDCB,
    Step(0x1AD9_2F46_B1F8_D9A7_CDA0_CEB6_8BE0_8215_EC1A_1F05_359E_EBBB_A76D_DE56_A219_447E, false,
         0xEE5_53CC_0184_361B_0F2E_DC80_52F5_39E0_6504_5367_8645_CFCC_92BF_C1C9_FE1E_78E1,
    Step(0x1DED_8980_AE2B_DD1A_4222_150E_8598_FC8C_58F5_0577_CA5A_5CE3_B2C8_7885_FCD0_B523, false,
         0x1282_4555_1A36_D382_358C_64A0_C78A_F503_9750_3EFC_2849_48AF_5B20_B437_8DD7_0A72,
    Step(0x2612_5DA1_0A0E_D063_2750_8ABA_06D1_E303_AC61_6632_DBED_349F_5342_2DA9_5333_7857, false,
         0x1DF3_D8F8_9E79_AA43_9D3F_30A3_47BF_B52A_0A24_233E_DB6E_BC55_1117_EF3D_73FC_40D4,
    Step(0x2260_E724_844B_CA52_5182_9353_968E_4915_3052_5841_8357_473A_5C1D_597F_613F_6CBD, false,
         0x186C_56CA_AA12_9A34_3B19_EC21_07AF_F530_A8D2_DFDE_9D34_3A43_BFE0_EB74_FF68_42A9,
    Step(0x19DD_BCAF_3A8D_46C1_5C01_76FB_B5B9_5E4D_C570_88FF_13F4_D1BD_84C6_BFA5_7DCD_C0E0, false,
         0xDD3_6B25_B1F6_FA2C_278E_9892_D942_FCCB_9212_C4A1_119B_9CD5_3577_7036_1981_6B1B,
    Last(0x1BF8_2DEB_A7D7_4902_C370_8CC6_E70E_61F3_0512_ECA9_5655_210E_276E_5858_CE8F_58E5)))))))))
  }

  function Walk31(): Walk {
    Step(0x1BF8_2DEB_A7D7_4902_C370_8CC6_E70E_61F3_0512_ECA9_5655_210E_276E_5858_CE8F_58E5, false,
         0x102A_6EB1_8AD1_5ED6_BA3E_AB76_D07E_64A7_4C1F_3475_8183_4B01_D0D3_F30C_4007_F922,
    Step(0xEE_B2CB_5981_ED45_649A_BEBD_E081_DCFF_16C8_601D_E434_7E7D_D162_8BA2_DAAC_43B7, false,
         0x4_9968_8724_7F59_74E8_E1E3_3D3C_CAFF_1754_0DA7_F113_98F7_86CD_5C22_CDAA_5FD6,
    Step(0x2D1B_A66F_5941_DC91_0171_71FA_69EC_2BD0_022A_2A2D_4115_A009_A934_58FD_4E26_ECFB, false,
         0x2A0C_0A30_D835_28DE_A1D0_2874_B656_800B_BCF5_511D_6AC6_D91A_7A96_8419_0867_4F94,
    Step(0x2D96_5651_CDD9_E481_1F4E_51B8_0DDC_A8A8_B4A9_3EE1_7420_AAE6_ADAA_01C2_617C_6E85, false,
         0x2AF1_FA66_7D36_AE73_995F_57D6_AA7E_D6CC_169D_00B0_7941_DACC_970B_09EE_FED0_BE09,
    Step(0x6F_AB49_B869_AE62_001D_EAC8_78B2_667B_D31B_F3E2_8E3A_2D76_4AA4_9B8D_9BBD_D310, false,
         0x1_01B0_1981_3F5F_589B_700C_19E4_41A6_57AF_ED86_741A_E318_C64C_FCD9_1360_8CC6,
    Step(0x931_D596_DE2F_D10F_01DD_D073_FD5A_90A9_76F1_69C7_6F03_9BB9_1C47_7572_0042_D43A, false,
         0x1BF_3D3B_3090_AD24_BFA4_69DF_01B0_19BE_9152_61D3_34F6_3479_9342_B6DC_C73D_EE42,
    Step(0x27A_3584_99C5_042B_B402_7FD7_A535_5D71_B8C1_2C17_7494_F0CA_D00A_58F9_769A_2EE2, false,
         0x20_77C2_1B2B_8F8F_622E_C3D6_8432_75B7_16BE_3944_6E5D_30C2_3107_2456_2C4F_A672,
    Step(0x6FD_19C1_7017_A420_EBBE_BC2B_B087_71E3_39BA_79C0_A8D2_D7AB_11F9_95E1_BC2E_5912, false,
         0x102_6114_B85B_94C6_7D33_066C_4CAE_8A67_64F7_DF6D_E0BA_0150_608A_2DD8_AA74_2D76,
    Last(0xF1D_ED1E_F6E7_2F5B_FFC0_2C0E_DD9B_0675_E830_2A41_FC78_2D75_893A_7FA1_4701_57CE)))))))))
  }

  function Walk32(): Walk {
    Step(0xF1D_ED1E_F6E7_2F5B_FFC0_2C0E_DD9B_0675_E830_2A41_FC78_2D75_893A_7FA1_4701_57CE, false,
         0x4B8_E894_CB33_8964_A696_DCCA_F36F_0367_D629_95B8_9DC5_9613_6E97_761D_7D14_2F4E,
    Step(0x7B0_C561_A614_8404_F086_204A_9F36_FFB0_6179_4254_6750_F230_C893_6191_74A5_7A76, false,
         0x138_E167_801E_8D21_9788_99BB_7326_9244_1AF6_60BE_DCE2_F843_7B7C_22FA_7C13_9653,
    Step(0x16E7_3DFD_AD31_0991_DF5C_E19C_E859_43E0_1DCB_5564_B6F2_4C79_9D0E_470C_BA9D_1811, false,
         0xAD7_0133_AEAC_231E_A30F_EE4E_99C5_2126_94B9_DEE3_AAA7_C01E_8CDF_0E54_998E_2EE7,
    Step(0x1418_144D_5B08_0FCA_C24C_DB76_49BD_ADF2_46A6_CB24_26E3_24BE_DB94_FB05_118F_023A, false,
         0x858_02AC_3E72_83BC_9DFF_B7DE_6202_CED5_4A9E_4111_FE1D_B01F_B70F_55B5_351B_E254,
    Step(0x9C5_32C6_306B_93D2_9678_200D_47C0_B2A9_9C18_D51B_838E_EB1D_3EED_4C53_3BB5_12D0, false,
         0x1F8_FDE6_5840_D7D4_E2FE_8F83_44B6_FD13_28A8_DE56_C80B_2ACC_5851_AB63_E87B_A2F5,
    Step(0x2108_2CA2_16CB_BF4E_1C6E_4F45_94DD_508C_996D_FBE1_174E_FB98_B115_09C6_E306_460B, false,
         0x168C_20A5_8FA7_B4C1_97CE_46F2_20B3_32FD_2AB1_A39D_BF3B_8573_0124_5B83_ABF0_A5F9,
    Step(0x2B33_7DE1_C8C1_4F22_EC9B_9E2F_96AF_EF36_5262_7366_F817_0A0A_948D_AD4A_C1BD_5E80, false,
         0x2691_35E3_7260_A350_99F9_FBBA_ED7B_7AEA_F980_64CB_AE5A_2781_49B1_D7F5_BC72_09CA,
    Step(0x3064_4E72_E131_A029_048B_6E19_3FD8_4104_5CEA_24F6_FD73_6BEC_2312_0470_8F70_3636, false,
         0x3064_4E72_E131_A028_50C6_967B_FE2F_29AE_2D71_6F5B_197F_8332_0EAC_7AD2_1EBA_D364,
    Last(0x3064_4E72_E131_A029_B850_45B6_8181_585D_2833_E848_79B9_7091_43E1_F593_F000_0000)))))))))
  }

  lemma Leads1()
    ensures Leads(Walk1(), 5, 24, 1, NUMBER_1)
  {
  }

  lemma Leads2()
    ensures Leads(Walk2(), 8, 50, NUMBER_1, NUMBER_2)
  {
  }

  lemma Leads3()
    ensures Leads(Walk3(), 8, 39, NUMBER_2, NUMBER_3)
  {
  }

  lemma Leads4()
    ensures Leads(Walk4(), 8, 57, NUMBER_3, NUMBER_4)
  {
  }

  lemma Leads5()
    ensures Leads(Walk5(), 8, 112, NUMBER_4, NUMBER_5)
  {
  }

  lemma Leads6()
    ensures Leads(Walk6(), 8, 152, NUMBER_5, NUMBER_6)
  {
  }

  lemma Leads7()
    ensures Leads(Walk7(), 8, 208, NUMBER_6, NUMBER_7)
  {
  }

  lemma Leads8()
    ensures Leads(Walk8(), 8, 20, NUMBER_7, NUMBER_8)
  {
  }

  lemma Leads9()
    ensures Leads(Walk9(), 8, 220, NUMBER_8, NUMBER_9)
  {
  }

  lemma Leads10()
    ensures Leads(Walk10(), 8, 40, NUMBER_9, NUMBER_10)
  {
  }

  lemma Leads11()
    ensures Leads(Walk11(), 8, 34, NUMBER_10, NUMBER_11)
  {
  }

  lemma Leads12()
    ensures Leads(Walk12(), 8, 219, NUMBER_11, NUMBER_12)
  {
  }

  lemma Leads13()
    ensures Leads(Walk13(), 8, 64, NUMBER_12, NUMBER_13)
  {
  }

  lemma Leads14()
    ensures Leads(Walk14(), 8, 192, NUMBER_13, NUMBER_14)
  {
  }

  lemma Leads15()
    ensures Leads(Walk15(), 8, 172, NUMBER_14, NUMBER_15)
  {
  }

  lemma Leads16()
    ensures Leads(Walk16(), 8, 46, NUMBER_15, NUMBER_16)
  {
  }

  lemma Leads17()
    ensures Leads(Walk17(), 8, 148, NUMBER_16, NUMBER_17)
  {
  }

  lemma Leads18()
    ensures Leads(Walk18(), 8, 25, NUMBER_17, NUMBER_18)
  {
  }

  lemma Leads19()
    ensures Leads(Walk19(), 8, 244, NUMBER_18, NUMBER_19)
  {
  }

  lemma Leads20()
    ensures Leads(Walk20(), 8, 36, NUMBER_19, NUMBER_20)
  {
  }

  lemma Leads21()
    ensures Leads(Walk21(), 8, 60, NUMBER_20, NUMBER_21)
  {
  }

  lemma Leads22()
    ensures Leads(Walk22(), 8, 220, NUMBER_21, NUMBER_22)
  {
  }

  lemma Leads23()
    ensures Leads(Walk23(), 8, 184, NUMBER_22, NUMBER_23)
  {
  }

  lemma Leads24()
    ensures Leads(Walk24(), 8, 72, NUMBER_23, NUMBER_24)
  {
  }

  lemma Leads25()
    ensures Leads(Walk25(), 8, 161, NUMBER_24, NUMBER_25)
  {
  }

  lemma Leads26()
    ensures Leads(Walk26(), 8, 240, NUMBER_25, NUMBER_26)
  {
  }

  lemma Leads27()
    ensures Leads(Walk27(), 8, 250, NUMBER_26, NUMBER_27)
  {
  }

  lemma Leads28()
    ensures Leads(Walk28(), 8, 201, NUMBER_27, NUMBER_28)
  {
  }

  lemma Leads29()
    ensures Leads(Walk29(), 8, 248, NUMBER_28, NUMBER_29)
  {
  }

  lemma Leads30()
    ensures Leads(Walk30(), 8, 0, NUMBER_29, NUMBER_30)
  {
  }

  lemma Leads31()
    ensures Leads(Walk31(), 8, 0, NUMBER_30, NUMBER_31)
  {
  }

  lemma Leads32()
    ensures Leads(Walk32(), 8, 0, NUMBER_31, NUMBER_32)
  {
  }
}
