/** The four substitution boxes of ARIA, aria.c and section 2.4.2 of RFC 5794. */
module AriaSBox {
  /** Row x >> 4 of the box, its first entry in the lowest byte. */
  function Sb1Row(x: bv8): bv128 {
    if x < 0x10 then 0x76abd7fe_2b670130_c56f6bf2_7b777c63
    else if x < 0x20 then 0xc072a49c_afa2d4ad_f04759fa_7dc982ca
    else if x < 0x30 then 0x1531d871_f1e5a534_ccf73f36_2693fdb7
    else if x < 0x40 then 0x75b227eb_e2801207_9a059618_c323c704
    else if x < 0x50 then 0x842fe329_b3d63b52_a05a6e1b_1a2c8309
    else if x < 0x60 then 0xcf584c4a_39becb6a_5bb1fc20_ed00d153
    else if x < 0x70 then 0xa89f3c50_7f02f945_85334d43_fbaaefd0
    else if x < 0x80 then 0xd2f3ff10_21dab6bc_f5389d92_8f40a351
    else if x < 0x90 then 0x73195d64_3d7ea7c4_1744975f_ec130ccd
    else if x < 0xa0 then 0xdb0b5ede_14b8ee46_88902a22_dc4f8160
    else if x < 0xb0 then 0x79e49591_62acd3c2_5c240649_0a3a32e0
    else if x < 0xc0 then 0x08ae7a65_eaf4566c_a94ed58d_6d37c8e7
    else if x < 0xd0 then 0x8a8bbd4b_1f74dde8_c6b4a61c_2e2578ba
    else if x < 0xe0 then 0x9e1dc186_b9573561_0ef60348_66b53e70
    else if x < 0xf0 then 0xdf2855ce_e9871e9b_948ed969_1198f8e1
    else 0x16bb54b0_0f2d9941_6842e6bf_0d89a18c
  }

  function Sb1(x: bv8): bv8 {
    Entry(Sb1Row(x), x)
  }

  /** Row x >> 4 of the box, its first entry in the lowest byte. */
  function Sb2Row(x: bv8): bv128 {
    if x < 0x10 then 0xd18b4d3c_466a0d62_cc4ac294_fc544ee2
    else if x < 0x20 then 0xc15919d3_032e77bc_2bbe97b4_cb64fa5e
    else if x < 0x30 then 0xbbe7df63_ae189cea_6999f055_6b41061d
    else if x < 0x40 then 0xeb10ee0f_aa45093a_e4854c96_fb667300
    else if x < 0x50 then 0xcdce2ff9_95c8788d_91adcfac_29f47f2d
    else if x < 0x60 then 0x5312a493_c7b8db47_282a835c_38887a08
    else if x < 0x70 then 0xb1e9ca32_74378e01_48582136_310e87ff
    else if x < 0x80 then 0x4011b9b6_d9609807_264256c4_d70cabb7
    else if x < 0x90 then 0xdc131f50_4ff12349_0484c9a0_bd8c20ec
    else if x < 0xa0 then 0xe59225e8_3e8f023b_657bc3e3_579ec0d8
    else if x < 0xb0 then 0x439d76fe_6739c57e_9ad4bfa9_17fddd15
    else if x < 0xc0 then 0xa88679d5_8aa30570_341bf268_f5d0e1a7
    else if x < 0xd0 then 0xda5f8216_246ed235_f627a61e_4b51c630
    else if x < 0xe0 then 0x6c9b4472_0a806f5d_9f1cb22c_efa275e6
    else if x < 0xf0 then 0x6d7c3fd6_b0f7a161_f3525a7d_335b0b90
    else 0x81b5baaf_1a71de89_f8b3223d_a5e014ed
  }

  function Sb2(x: bv8): bv8 {
    Entry(Sb2Row(x), x)
  }

  /** Row x >> 4 of the box, its first entry in the lowest byte. */
  function Is1Row(x: bv8): bv128 {
    if x < 0x10 then 0xfbd7f381_9ea340bf_38a53630_d56a0952
    else if x < 0x20 then 0xcbe9dec4_44438e34_87ff2f9b_8239e37c
    else if x < 0x30 then 0x4ec3fa42_0b954cee_3d23c2a6_32947b54
    else if x < 0x40 then 0x25d18b6d_49a25b76_b224d928_66a12e08
    else if x < 0x50 then 0x92b6655d_cc5ca4d4_16986886_64f6f872
    else if x < 0x60 then 0x849d8da7_5746155e_dab9edfd_5048706c
    else if x < 0x70 then 0x0645b3b8_0558e4f7_0ad3bc8c_00abd890
    else if x < 0x80 then 0x6b8a1301_03bdafc1_020f3fca_8f1e2cd0
    else if x < 0x90 then 0x73e6b4f0_cecff297_eadc674f_4111913a
    else if x < 0xa0 then 0x6edf751c_e837f9e2_8535ade7_2274ac96
    else if x < 0xb0 then 0x1bbe18aa_0e62b76f_89c5291d_711af147
    else if x < 0xc0 then 0xf45acd78_fec0db9a_2079d2c6_4b3e56fc
    else if x < 0xd0 then 0x5fec8027_591012b1_31c70788_33a8dd1f
    else if x < 0xe0 then 0xef9cc993_9f7ae52d_0d4ab519_a97f5160
    else if x < 0xf0 then 0x61995383_3cbbebc8_b0f52aae_4d3be0a0
    else 0x7d0c2155_631469e1_26d677ba_7e042b17
  }

  function Is1(x: bv8): bv8 {
    Entry(Is1Row(x), x)
  }

  /** Row x >> 4 of the box, its first entry in the lowest byte. */
  function Is2Row(x: bv8): bv128 {
    if x < 0x10 then 0x3c620972_e1db3950_7821b987_1b996830
    else if x < 0x20 then 0x8dc420d6_b6fb1d2a_a3cca0f1_8e5e7e3e
    else if x < 0x30 then 0x4d1a40d4_17564357_c6779dcb_89f56581
    else if x < 0x40 then 0xed9bf40c_9838aa53_6a64c8b7_e36c63c0
    else if x < 0x50 then 0x8b010d35_c3068867_580b3add_af76227f
    else if x < 0x60 then 0xce10d854_e2e51e66_93752402_5fe6c28c
    else if x < 0x70 then 0xd9caefdf_230a27b4_ab329712_2c08e87a
    else if x < 0x80 then 0x41a8e4ee_9651bd49_19add16b_31dcfab8
    else if x < 0x90 then 0x9a694882_0ebbf852_61be3686_55cdffda
    else if x < 0xa0 then 0xd792ae29_dea72679_15344b04_5c9e47e0
    else if x < 0xb0 then 0xfc2b4644_713ba4bf_b0c5f35d_bad2e984
    else if x < 0xc0 then 0xa5168318_2ffd7d5a_707cfe14_f6d56feb
    else if x < 0xd0 then 0x454e4f07_136d854a_5bc1a974_95051f91
    else if x < 0xe0 then 0x2df9a18f_59cf7b90_73ecbca6_1cc90fb2
    else if x < 0xf0 then 0xd33df080_3f286e9c_2ed09f37_9400b1f2
    else 0x60aca203_33114cf7_eac7b342_e7b58a25
  }

  function Is2(x: bv8): bv8 {
    Entry(Is2Row(x), x)
  }

  function Entry(row: bv128, x: bv8): bv8 {
    ((row >> (8 * (x & 0xf))) & 0xff) as bv8
  }

  // ---- the boxes undo each other ----

  lemma FirstBox(x: bv8)
    ensures Is1(Sb1(x)) == x
  {
  }

  lemma FirstBoxBack(x: bv8)
    ensures Sb1(Is1(x)) == x
  {
  }

  lemma SecondBox(x: bv8)
    ensures Is2(Sb2(x)) == x
  {
  }

  lemma SecondBoxBack(x: bv8)
    ensures Sb2(Is2(x)) == x
  {
  }
}
