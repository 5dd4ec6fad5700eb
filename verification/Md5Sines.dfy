/** The table of section 3.4 of RFC 1321 is 2^32 times the sines of 1 to 64, cut to whole numbers.  Sine and cosine of 1
    are known by their series, the others by turning through one more radian. */
module Md5Sines {
  import opened Md5

  // -------------------------------------------------------------------------- sines and cosines

  /** 1 / k! */
  ghost function Term(k: nat): real { if k == 0 then 1.0 else Term(k - 1) / (k as real) }

  /** The first `n` terms of the series at 1. */
  ghost function SinSum(n: nat): real {
    if n == 0 then 0.0 else SinSum(n - 1) + if n % 2 == 1 then Term(2 * n - 1) else -Term(2 * n - 1)
  }

  ghost function CosSum(n: nat): real {
    if n == 0 then 0.0 else CosSum(n - 1) + if n % 2 == 1 then Term(2 * n - 2) else -Term(2 * n - 2)
  }

  /** `s` and `c` are between the sums of 16 and of 17 terms: the series are alternating, so that sine and cosine of 1
      are. */
  ghost predicate OfOne(s: real, c: real) { SinSum(16) <= s <= SinSum(17) && CosSum(16) <= c <= CosSum(17) }

  /** Sine and cosine of `n`, when `s` and `c` are those of 1. */
  ghost function Sin(n: nat, s: real, c: real): real {
    if n == 0 then 0.0 else Sin(n - 1, s, c) * c + Cos(n - 1, s, c) * s
  }

  ghost function Cos(n: nat, s: real, c: real): real {
    if n == 0 then 1.0 else Cos(n - 1, s, c) * c - Sin(n - 1, s, c) * s
  }

  function Abs(x: real): real { if x < 0.0 then -x else x }

  // --------------------------------------------------------------------------- whole numbers near them

  const UNIT: int := 0x1_0000_0000_0000_0000_0000_0000_0000
  const SIN1: int := 0xd76a_a478_4867_7020_c6e9_e909_c50f
  const COS1: int := 0x8a51_407d_a834_5c91_c246_6d97_6871

  const POINTS1: seq<(int, int)> := [
    (0x0, 0x1_0000_0000_0000_0000_0000_0000_0000),
    (0xd76a_a478_4867_7020_c6e9_e909_c50f, 0x8a51_407d_a834_5c91_c246_6d97_6871),
    (0xe8c7_b756_8da2_2efd_5c24_0c40_04e3, -0x6a88_995d_4dc8_1290_ccbe_2b2e_dcad),
    (0x2420_70db_6daa_b69e_3902_e846_8313, -0xfd70_25f4_2f2e_9307_dff8_2fdf_6a6f),
    (-0xc1bd_ceee_e0f5_7386_74c0_2ad0_7228, -0xa755_3036_d926_0623_36d0_e16e_3dd2),
    (-0xf57c_0faf_04c9_9913_5789_f2ab_1ddf, 0x489e_15c1_ad2b_654f_99f7_5a35_ee61),
    (-0x4787_c62a_c28b_00e9_8910_5113_d284, 0xf5cd_b84b_c117_abd7_4f1e_7000_74a6),
    (0xa830_4613_6850_421d_d444_208f_d778, 0xc0ff_bcf6_c900_baaf_bd68_c5a9_9d4f),
    (0xfd46_9501_467b_d74f_b158_5382_8461, -0x253f_7d7e_c65f_271e_c91f_976a_fbe0),
    (0x6980_98d8_30be_4248_7274_a829_1c61, -0xe93f_d535_30cb_5b82_68bb_2e89_49a7),
    (-0x8b44_f7af_9a7a_92ce_7fb2_2be0_24e3, -0xd6cd_6448_6358_f904_f7e2_a0b9_9946),
    (-0xffff_5bb1_749f_56ad_6387_c283_27dd, 0x122_0ae4_1ee2_fdf5_fc5e_106e_5f03),
    (-0x895c_d7be_bb2d_2a4e_0f28_53fa_36ce, 0xd806_d023_5b2f_15a0_219b_bc9e_ac63),
    (0x6b90_1122_0714_1869_f4a7_3ece_8a91, 0xe84e_6ea9_3065_b972_c93b_83e7_96c7),
    (0xfd98_7193_e2f2_24ea_5bb0_ee03_7bbc, 0x2301_35d8_5941_d937_0747_18a5_3643),
    (0xa679_438e_7617_42e9_5c9a_4e93_9989, -0xc27a_e834_e527_9535_5968_57a4_85e9)]
  const POINTS2: seq<(int, int)> := [
    (-0x49b4_0821_7c83_df90_508b_20b0_08ba, -0xf529_2bf4_b17b_9eb6_1a3f_f42c_1339),
    (-0xf61e_2562_1441_5b76_8a02_1d60_0d70, -0x4671_1ac1_fd63_9b8c_54e4_935c_78a5),
    (-0xc040_b340_98f1_339d_abd1_0936_7eeb, 0xa90a_840a_e923_7dd4_2138_21f1_a2d7),
    (0x265e_5a51_eb09_9d08_e4ba_bcc6_3081, 0xfd1b_bef0_8412_c2b8_1854_b959_c76c),
    (0xe9b6_c7aa_e9e6_ff24_afc0_510a_4781, 0x6878_10e5_92a0_fdd1_5713_934c_5fe1),
    (0xd62f_105d_86bf_656a_fcd8_2f21_1a63, -0x8c37_fc1b_b9ba_cb2e_a76b_817a_b5c3),
    (-0x244_1453_edd7_3e7a_bed1_d0ef_cacc, -0xfffd_6ec6_a566_d00f_b595_506d_b759),
    (-0xd8a1_e681_23e8_0fd8_ad1e_71e4_b309, -0x8867_beac_8f93_925e_43c2_c847_2397),
    (-0xe7d3_fbc8_c8a0_7480_2cf4_0dd3_543a, 0x6c96_fed4_2982_6783_9d6e_080f_4ff6),
    (-0x21e1_cde6_3d01_39ed_8f43_76de_b8d9, 0xfdbf_77ac_a827_f8c5_9393_b6a0_ffdc),
    (0xc337_07d6_192c_1b72_7f31_4f99_1b60, 0xa59c_8134_8d4f_670a_d304_9797_bd7e),
    (0xf4d5_0d87_2dd1_7eeb_0bec_dcfb_3a77, -0x4ac9_9be5_677b_5486_75d3_1a66_6931),
    (0x455a_14ed_1453_563f_922c_c06d_841f, -0xf66d_568a_c128_0096_7ecc_a1b9_40b3),
    (-0xa9e3_e905_364f_354b_0641_ab71_5996, -0xbf80_b2c1_8a72_3bb9_4571_9ecd_5a2e),
    (-0xfcef_a3f8_e481_e55d_994f_b58c_1a16, 0x277d_05e4_a0b4_a449_6c01_0625_2871),
    (-0x676f_02d9_03f2_02fe_b00c_68ec_903a, 0xea2c_8e1f_0950_ffdc_f280_d067_30fd)]
  const POINTS3: seq<(int, int)> := [
    (0x8d2a_4c8a_132b_2d72_b25f_0b53_4508, 0xd58f_a982_ef47_29c7_752d_6deb_9d21),
    (0xfffa_3942_0b11_bd78_e243_abdb_18ee, -0x366_1adb_1ecb_eefd_0d9b_2b65_6559),
    (0x8771_f681_c3ed_0602_7e9c_c568_b292, -0xd93b_e6ca_8ebf_b50f_5231_f527_b5d7),
    (-0x6d9d_6122_332f_9e85_effc_f62c_7f8c, -0xe758_5f52_84a5_3b11_578c_22b6_262e),
    (-0xfde5_380c_670e_1cbd_4b69_e3c2_55bc, -0x20c2_3a76_0673_5868_e56e_2800_14bd),
    (-0xa4be_ea44_7f48_7554_f2db_8a35_b7f4, 0xc3f2_2ce1_010c_5cf2_c4c9_ee9e_d047),
    (0x4bde_cfa9_1e6a_73ad_08d1_0867_36ba, 0xf47f_b4d2_7465_adb1_668c_9f67_7c72),
    (0xf6bb_4b60_2037_4db6_8118_46fd_e060, 0x4442_b612_320a_5c68_ce2b_d152_3ebd),
    (0xbebf_bc70_13f7_fc8a_62e1_c0b3_3cfa, -0xaabc_73eb_410c_7548_5a84_579d_2cbd),
    (-0x289b_7ec6_eba3_8fe9_5293_5480_561b, -0xfcc2_4453_0566_f92e_853d_3c9f_59ac),
    (-0xeaa1_27fa_607f_6835_7e3b_0e29_d77d, -0x6665_7006_c156_95b2_6d58_858f_bf9a),
    (-0xd4ef_3085_3a88_9772_1bab_c0a0_14df, 0x8e1b_e7c3_9b0d_796f_6fb1_2c7d_8de3),
    (0x488_1d05_676c_1046_351b_f69e_aa94, 0xfff5_bb27_c42a_1ffe_5702_d266_ebe9),
    (0xd9d4_d039_ecd8_1707_00e3_e757_f8d2, 0x867b_8079_d781_f535_f732_305a_e4f5),
    (0xe6db_99e5_10c5_8592_e292_0ca4_1db2, -0x6ea3_36bb_5526_2497_881f_6d40_ac6e),
    (0x1fa2_7cf8_daf6_f636_ead9_b588_affa, -0xfe09_b282_a9ff_8e78_1f67_41f1_bdc1)]
  const POINTS4: seq<(int, int)> := [
    (-0xc4ac_5665_627c_066c_59f1_9bf8_b6f0, -0xa3e0_7fda_bd5f_4348_319e_0c92_30b2),
    (-0xf429_2244_133e_b583_fafe_8166_01c5, 0x4cf3_a208_cce5_17d2_2333_374b_2550),
    (-0x432a_ff97_f37f_2151_d2e5_6b1d_1aa4, 0xf708_037e_1fe7_cc46_93ed_45ae_dfe2),
    (0xab94_23a7_1284_117e_a959_9873_e5b1, 0xbdfd_d143_e783_0cb6_4d16_da23_0cd6),
    (0xfc93_a039_2526_353b_3161_dbad_c7cd, -0x29b9_c389_112a_d665_755f_2395_36f9),
    (0x655b_59c3_b1e2_c162_0aff_4575_33bc, -0xeb14_94a7_42c4_77af_e963_868d_59cc),
    (-0x8f0c_cc92_2e3e_4cf7_a089_5dbf_fc2c, -0xd44d_a632_6601_352b_c7d0_d524_c179),
    (-0xffef_f47d_9503_5ed1_18d5_683d_f35f, 0x5aa_195e_82fc_5a29_9c7e_1921_4949),
    (-0x8584_5dd1_28c8_d201_13dc_4263_0815, 0xda6c_a20a_f545_c45a_da38_af4e_1754),
    (0x6fa8_7e4f_750e_8134_fd18_e9f1_6993, 0xe65d_ac20_9685_bbcc_05ff_c45a_65e1),
    (0xfe2c_e6e0_9db2_6f97_6413_8d79_194b, 0x1e82_96e0_15e5_3c66_2a20_13bd_dbe8),
    (0xa301_4314_c866_594e_6177_51ae_b22c, -0xc565_8374_460d_78b1_a56a_01be_6866),
    (-0x4e08_11a1_1b83_099a_7046_8e54_6aac, -0xf3d1_564b_2b42_9626_f8a4_d29a_1327),
    (-0xf753_7e82_453f_5084_9ed1_20cb_a41d, -0x4212_f2e5_6622_0afe_bff5_5663_0199),
    (-0xbd3a_f235_f162_7bf0_cdab_2830_8de7, 0xac6a_f723_cd33_7361_fa29_72d8_bcbb),
    (0x2ad7_d2bb_9988_1a80_8dbf_1486_8d32, 0xfc63_b7e7_229f_8a08_1ff7_9245_bb65)]
  const LAST: (int, int) := (0xeb86_d391_860e_c3db_e6b4_44b1_d9ef,
                            0x6450_c165_6563_bfd4_ddd0_797c_fc97)

  /** UNIT times sine and cosine of `n`, nearly. */
  function Point(n: nat): (int, int)
    requires n <= 64
  {
    if n < 16 then POINTS1[n] else if n < 32 then POINTS2[n - 16] else if n < 48 then POINTS3[n - 32]
    else if n < 64 then POINTS4[n - 48] else LAST
  }

  predicate Within(x: int, bound: int) { -bound <= x <= bound }

  /** From one point to the next. */
  predicate Turns(p: (int, int), q: (int, int)) {
    && Within(p.0, 2 * UNIT) && Within(p.1, 2 * UNIT)
    && Within(p.0 * COS1 + p.1 * SIN1 - UNIT * q.0, UNIT)
    && Within(p.1 * COS1 - p.0 * SIN1 - UNIT * q.1, UNIT)
  }

  lemma Turns1(n: nat)
    requires n < 16
    ensures Turns(POINTS1[n], if n < 15 then POINTS1[n + 1] else POINTS2[0])
  {
  }

  lemma Turns2(n: nat)
    requires n < 16
    ensures Turns(POINTS2[n], if n < 15 then POINTS2[n + 1] else POINTS3[0])
  {
  }

  lemma Turns3(n: nat)
    requires n < 16
    ensures Turns(POINTS3[n], if n < 15 then POINTS3[n + 1] else POINTS4[0])
  {
  }

  lemma Turns4(n: nat)
    requires n < 16
    ensures Turns(POINTS4[n], if n < 15 then POINTS4[n + 1] else LAST)
  {
  }

  lemma AllTurn(n: nat)
    requires n < 64
    ensures Turns(Point(n), Point(n + 1))
  {
    hide Turns;
    if n < 16 { Turns1(n); } else if n < 32 { Turns2(n - 16); }
    else if n < 48 { Turns3(n - 32); } else { Turns4(n - 48); }
  }

  // ---------------------------------------------------------------------------- sine and cosine of 1

  lemma TermsAre()
    ensures Term(0) == Term(1) == 1.0
    ensures Term(2) == 1.0 / 2.0 && Term(3) == 1.0 / 6.0
    ensures Term(4) == 1.0 / 24.0 && Term(5) == 1.0 / 120.0
    ensures Term(6) == 1.0 / 720.0 && Term(7) == 1.0 / 5040.0
    ensures Term(8) == 1.0 / 40320.0 && Term(9) == 1.0 / 362880.0
    ensures Term(10) == 1.0 / 3628800.0 && Term(11) == 1.0 / 39916800.0
    ensures Term(12) == 1.0 / 479001600.0 && Term(13) == 1.0 / 6227020800.0
    ensures Term(14) == 1.0 / 87178291200.0 && Term(15) == 1.0 / 1307674368000.0
    ensures Term(16) == 1.0 / 20922789888000.0 && Term(17) == 1.0 / 355687428096000.0
    ensures Term(18) == 1.0 / 6402373705728000.0 && Term(19) == 1.0 / 121645100408832000.0
    ensures Term(20) == 1.0 / 2432902008176640000.0 && Term(21) == 1.0 / 51090942171709440000.0
    ensures Term(22) == 1.0 / 1124000727777607680000.0 && Term(23) == 1.0 / 25852016738884976640000.0
    ensures Term(24) == 1.0 / 620448401733239439360000.0 && Term(25) == 1.0 / 15511210043330985984000000.0
    ensures Term(26) == 1.0 / 403291461126605635584000000.0 && Term(27) == 1.0 / 10888869450418352160768000000.0
    ensures Term(28) == 1.0 / 304888344611713860501504000000.0 && Term(29) == 1.0 / 8841761993739701954543616000000.0
    ensures Term(30) == 1.0 / 265252859812191058636308480000000.0
    ensures Term(31) == 1.0 / 8222838654177922817725562880000000.0
    ensures Term(32) == 1.0 / 263130836933693530167218012160000000.0
    ensures Term(33) == 1.0 / 8683317618811886495518194401280000000.0
  {
  }

  lemma SinSums()
    ensures SinSum(16) == Term(1) - Term(3) + Term(5) - Term(7) + Term(9) - Term(11) + Term(13) - Term(15)
                          + Term(17) - Term(19) + Term(21) - Term(23) + Term(25) - Term(27) + Term(29) - Term(31)
    ensures SinSum(17) == SinSum(16) + Term(33)
  {
    hide Term;
    assert SinSum(4) == Term(1) - Term(3) + Term(5) - Term(7);
    assert SinSum(8) == SinSum(4) + Term(9) - Term(11) + Term(13) - Term(15);
    assert SinSum(12) == SinSum(8) + Term(17) - Term(19) + Term(21) - Term(23);
  }

  lemma CosSums()
    ensures CosSum(16) == Term(0) - Term(2) + Term(4) - Term(6) + Term(8) - Term(10) + Term(12) - Term(14)
                          + Term(16) - Term(18) + Term(20) - Term(22) + Term(24) - Term(26) + Term(28) - Term(30)
    ensures CosSum(17) == CosSum(16) + Term(32)
  {
    hide Term;
    assert CosSum(4) == Term(0) - Term(2) + Term(4) - Term(6);
    assert CosSum(8) == CosSum(4) + Term(8) - Term(10) + Term(12) - Term(14);
    assert CosSum(12) == CosSum(8) + Term(16) - Term(18) + Term(20) - Term(22);
  }

  /** A product by name, for proofs that need not multiply. */
  function Times(a: real, b: real): real { a * b }

  /** At most `e` away. */
  predicate By(x: real, a: real, e: real) { -e <= x - a <= e }

  lemma OneIs(s: real, c: real)
    requires OfOne(s, c)
    ensures var unit := UNIT as real;
            && unit > 0.0 && By(Times(unit, s), SIN1 as real, 1.0) && By(Times(unit, c), COS1 as real, 1.0)
            && 0.0 <= Times(unit, s) <= unit && 0.0 <= Times(unit, c) <= unit
  {
    TermsAre();
    SinSums();
    CosSums();
    hide Term, SinSum, CosSum;
  }

  // -------------------------------------------------------------------------------- how near they are

  /** After `n` turns. */
  function Error(n: nat): (e: real)
    ensures e >= 0.0
  {
    if n == 0 then 0.0 else 2.0 * Error(n - 1) + 5.0
  }

  lemma {:induction false} ErrorGrows(n: nat, m: nat)
    requires n <= m
    ensures Error(n) <= Error(m)
  {
    if n < m {
      ErrorGrows(n, m - 1);
    }
  }

  lemma LastError()
    ensures Error(64) <= 147573952589676412928.0
  {
    assert Error(10) == 5115.0;
    assert Error(20) == 5242875.0;
    assert Error(30) == 5368709115.0;
    assert Error(40) == 5497558138875.0;
    assert Error(50) == 5629499534213115.0;
    assert Error(60) == 5764607523034234875.0;
  }

  lemma Product(x: real, a: real, c: real, k: real, e: real, unit: real)
    requires By(x, a, e) && By(c, k, 1.0) && 0.0 <= c <= unit && By(a, 0.0, 2.0 * unit)
    ensures By(Times(x, c), Times(a, k), Times(e, unit) + 2.0 * unit)
  {
    Apart(x, a, c, k);
    Bounded(x - a, e, c, unit);
    Bounded(c - k, 1.0, if a < 0.0 then -a else a, 2.0 * unit);
    ByOne(c - k, a, unit);
  }

  lemma Apart(x: real, a: real, c: real, k: real)
    ensures Times(x, c) - Times(a, k) == Times(x - a, c) + Times(c - k, a)
  {
  }

  lemma ByOne(v: real, a: real, unit: real)
    requires By(Times(v, if a < 0.0 then -a else a), 0.0, Times(1.0, 2.0 * unit))
    ensures By(Times(v, a), 0.0, 2.0 * unit)
  {
    assert v * -a == -(v * a);
  }

  lemma Bounded(u: real, e: real, c: real, k: real)
    requires By(u, 0.0, e) && 0.0 <= c <= k
    ensures By(Times(u, c), 0.0, Times(e, k))
  {
    assert e * c <= e * k;
    assert (e - u) * c >= 0.0 && (e + u) * c >= 0.0;
  }

  /** Sine and cosine of `n` are that near their points. */
  ghost predicate Near(n: nat, s: real, c: real)
    requires n <= 64
  {
    && By(Times(UNIT as real, Sin(n, s, c)), Point(n).0 as real, Error(n))
    && By(Times(UNIT as real, Cos(n, s, c)), Point(n).1 as real, Error(n))
  }

  /** Products of units. */
  lemma Gather(x: real, y: real, c: real, s: real, unit: real)
    ensures Times(Times(unit, x), Times(unit, c)) + Times(Times(unit, y), Times(unit, s))
            == Times(unit, Times(unit, Times(x, c) + Times(y, s)))
  {
    assert (unit * x) * (unit * c) == unit * (unit * (x * c));
    assert (unit * y) * (unit * s) == unit * (unit * (y * s));
  }

  lemma OneUnit(v: real, unit: real, q: real, e: real)
    requires unit > 0.0 && By(Times(unit, v), Times(unit, q), 2.0 * Times(e, unit) + 5.0 * unit)
    ensures By(v, q, 2.0 * e + 5.0)
  {
    var d, f := v - q, 2.0 * e + 5.0;
    assert unit * d == unit * v - unit * q && f * unit == 2.0 * (e * unit) + 5.0 * unit;
    assert unit * (f - d) >= 0.0 && unit * (f + d) >= 0.0;
    Sign(unit, f - d);
    Sign(unit, f + d);
  }

  lemma Sign(unit: real, z: real)
    requires unit > 0.0
    ensures z < 0.0 ==> unit * z < 0.0
  {
  }

  /** One coordinate of a turn, in units: `k` and `l` are cosine and sine of 1, `a` and `b` the coordinates before and
      `q` the one after. */
  lemma Half(x: real, y: real, a: real, b: real, q: real, c: real, s: real, k: real, l: real, e: real, unit: real)
    requires unit > 0.0 && By(Times(unit, x), a, e) && By(Times(unit, y), b, e)
    requires By(Times(unit, c), k, 1.0) && By(Times(unit, s), l, 1.0)
    requires 0.0 <= Times(unit, c) <= unit && 0.0 <= Times(unit, s) <= unit
    requires By(a, 0.0, 2.0 * unit) && By(b, 0.0, 2.0 * unit) && By(Times(a, k) + Times(b, l), Times(unit, q), unit)
    ensures By(Times(unit, Times(x, c) + Times(y, s)), q, 2.0 * e + 5.0)
  {
    hide Times;
    Product(Times(unit, x), a, Times(unit, c), k, e, unit);
    Product(Times(unit, y), b, Times(unit, s), l, e, unit);
    Gather(x, y, c, s, unit);
    OneUnit(Times(unit, Times(x, c) + Times(y, s)), unit, q, e);
  }

  /** What Turns says of real numbers. */
  lemma TurnsReal(p: (int, int), q: (int, int))
    requires Turns(p, q)
    ensures var unit, k, l := UNIT as real, COS1 as real, SIN1 as real;
            && By(p.0 as real, 0.0, 2.0 * unit) && By(p.1 as real, 0.0, 2.0 * unit)
            && By(-(p.0 as real), 0.0, 2.0 * unit)
            && By(Times(p.0 as real, k) + Times(p.1 as real, l), Times(unit, q.0 as real), unit)
            && By(Times(p.1 as real, k) + Times(-(p.0 as real), l), Times(unit, q.1 as real), unit)
  {
  }

  lemma Opposite(unit: real, x: real, a: real, e: real)
    requires By(Times(unit, x), a, e)
    ensures By(Times(unit, -x), -a, e)
  {
    assert unit * -x == -(unit * x);
  }

  lemma NextIs(n: nat, s: real, c: real)
    ensures Sin(n + 1, s, c) == Times(Sin(n, s, c), c) + Times(Cos(n, s, c), s)
    ensures Cos(n + 1, s, c) == Times(Cos(n, s, c), c) + Times(-Sin(n, s, c), s)
    ensures Error(n + 1) == 2.0 * Error(n) + 5.0
  {
  }

  lemma NearNext(n: nat, s: real, c: real)
    requires n < 64 && OfOne(s, c) && Near(n, s, c)
    ensures Near(n + 1, s, c)
  {
    hide OfOne, Turns, Point, Error, UNIT, SIN1, COS1, Times, Sin, Cos;
    var unit, k, l := UNIT as real, COS1 as real, SIN1 as real;
    var x, y, p, q := Sin(n, s, c), Cos(n, s, c), Point(n), Point(n + 1);
    OneIs(s, c);
    AllTurn(n);
    TurnsReal(p, q);
    NextIs(n, s, c);
    Opposite(unit, x, p.0 as real, Error(n));
    Half(x, y, p.0 as real, p.1 as real, q.0 as real, c, s, k, l, Error(n), unit);
    Half(y, -x, p.1 as real, -(p.0 as real), q.1 as real, c, s, k, l, Error(n), unit);
  }

  lemma {:induction false} AllNear(n: nat, s: real, c: real)
    requires n <= 64 && OfOne(s, c)
    ensures Near(n, s, c)
  {
    hide OfOne;
    if n > 0 {
      hide Near;
      AllNear(n - 1, s, c);
      NearNext(n - 1, s, c);
    } else {
      assert Point(0) == (0, UNIT);
    }
  }

  // ------------------------------------------------------------------------------------ the table

  /** The magnitude of the sine, in units, lies well between two numbers of the table. */
  predicate Between(t: nat, p: (int, int)) {
    var a := if p.0 < 0 then -p.0 else p.0;
    t * 0x1_0000_0000_0000_0000_0000 + 0x8_0000_0000_0000_0000 <= a
    < (t + 1) * 0x1_0000_0000_0000_0000_0000 - 0x8_0000_0000_0000_0000
  }

  lemma Table1(i: nat)
    requires i < 16
    ensures Between(SINES1[i], if i < 15 then POINTS1[i + 1] else POINTS2[0])
  {
  }

  lemma Table2(i: nat)
    requires i < 16
    ensures Between(SINES2[i], if i < 15 then POINTS2[i + 1] else POINTS3[0])
  {
  }

  lemma Table3(i: nat)
    requires i < 16
    ensures Between(SINES3[i], if i < 15 then POINTS3[i + 1] else POINTS4[0])
  {
  }

  lemma Table4(i: nat)
    requires i < 16
    ensures Between(SINES4[i], if i < 15 then POINTS4[i + 1] else LAST)
  {
  }

  lemma AllBetween(i: nat)
    requires i < 64
    ensures Between(Sine(i), Point(i + 1))
  {
    hide Between;
    if i < 16 { Table1(i); } else if i < 32 { Table2(i - 16); }
    else if i < 48 { Table3(i - 32); } else { Table4(i - 48); }
  }

  /** Every constant is 2^32 times the magnitude of the sine of its number, cut to a whole number. */
  lemma SineRule(i: nat, s: real, c: real)
    requires i < 64 && OfOne(s, c)
    ensures Sine(i) as real <= 4294967296.0 * Abs(Sin(i + 1, s, c)) < Sine(i) as real + 1.0
  {
    hide OfOne, Sin, Cos, Point, Sine, Error;
    AllNear(i + 1, s, c);
    AllBetween(i);
    ErrorGrows(i + 1, 64);
    LastError();
  }
}
