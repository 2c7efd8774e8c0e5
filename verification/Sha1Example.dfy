/**
 The message "abc", whose digest FIPS 180 gives as an example, followed from its block to its digest.
 */
module Sha1Example {
  import opened Bytes
  import opened Sha1

  const ABC: seq<byte> := [0x61, 0x62, 0x63]

  /** Words t to t + 15 of a schedule. */
  datatype Next16 = Next16(w0: word, w1: word, w2: word, w3: word, w4: word, w5: word, w6: word, w7: word,
                           w8: word, w9: word, w10: word, w11: word, w12: word, w13: word, w14: word, w15: word)

  datatype Progress = Progress(t: nat, h: Words, w: Next16)

  /** One round, and one more word of the schedule. */
  function Go(p: Progress): Progress {
    var w := p.w;
    Progress(p.t + 1, Round(p.t, p.h, w.w0),
             Next16(w.w1, w.w2, w.w3, w.w4, w.w5, w.w6, w.w7, w.w8, w.w9, w.w10, w.w11, w.w12, w.w13, w.w14, w.w15,
                    Mix(w.w13, w.w8, w.w2, w.w0)))
  }

  /** The same with constant shifts. */
  function Pace(p: Progress): Progress {
    var h, w := p.h, p.w;
    var f, k :=
      if p.t < 20 then (h.b & h.c) ^ (!h.b & h.d) else if p.t < 40 then h.b ^ h.c ^ h.d
      else if p.t < 60 then (h.b & h.c) ^ (h.b & h.d) ^ (h.c & h.d) else h.b ^ h.c ^ h.d,
      if p.t < 20 then 0x5A82_7999 else if p.t < 40 then 0x6ED9_EBA1 else if p.t < 60 then 0x8F1B_BCDC else 0xCA62_C1D6;
    Progress(p.t + 1, Words(Sum(Left5(h.a), f, h.e, k, w.w0), h.a, Left30(h.b), h.c, h.d),
             Next16(w.w1, w.w2, w.w3, w.w4, w.w5, w.w6, w.w7, w.w8, w.w9, w.w10, w.w11, w.w12, w.w13, w.w14, w.w15,
                    Left1(w.w13 ^ w.w8 ^ w.w2 ^ w.w0)))
  }

  function Choice(t: nat, x: word, y: word, z: word): word {
    if t < 20 then (x & y) ^ (!x & z) else if t < 40 then x ^ y ^ z
    else if t < 60 then (x & y) ^ (x & z) ^ (y & z) else x ^ y ^ z
  }

  lemma ChIs(t: nat, x: word, y: word, z: word)
    requires t < 20
    ensures Choice(t, x, y, z) == Ch(x, y, z)
  {
  }

  lemma ParityIs(t: nat, x: word, y: word, z: word)
    requires 20 <= t < 40 || 60 <= t
    ensures Choice(t, x, y, z) == Parity(x, y, z)
  {
  }

  lemma MajIs(t: nat, x: word, y: word, z: word)
    requires 40 <= t < 60
    ensures Choice(t, x, y, z) == Maj(x, y, z)
  {
  }

  lemma ChoiceIs(t: nat, x: word, y: word, z: word)
    ensures F(t, x, y, z) == Choice(t, x, y, z)
  {
    hide Choice, Ch, Parity, Maj;
    if t < 20 { ChIs(t, x, y, z); } else if 40 <= t < 60 { MajIs(t, x, y, z); } else { ParityIs(t, x, y, z); }
  }

  function Made(p: Progress, l5: word, f: word, k: word, l30: word, l1: word): Progress {
    var h, w := p.h, p.w;
    Progress(p.t + 1, Words(Sum(l5, f, h.e, k, w.w0), h.a, l30, h.c, h.d),
             Next16(w.w1, w.w2, w.w3, w.w4, w.w5, w.w6, w.w7, w.w8, w.w9, w.w10, w.w11, w.w12, w.w13, w.w14, w.w15, l1))
  }

  lemma GoMade(p: Progress)
    ensures Go(p) == Made(p, Rotl(p.h.a, 5), F(p.t, p.h.b, p.h.c, p.h.d), K(p.t), Rotl(p.h.b, 30),
                          Rotl(p.w.w13 ^ p.w.w8 ^ p.w.w2 ^ p.w.w0, 1))
  {
    hide Rotl, F, K, Sum;
  }

  lemma PaceSum(p: Progress)
    ensures Pace(p).h.a == Sum(Left5(p.h.a), Choice(p.t, p.h.b, p.h.c, p.h.d), p.h.e, K(p.t), p.w.w0)
  {
    hide Left1, Left5, Left30, Sum;
    if p.t < 20 { } else if p.t < 40 { } else if p.t < 60 { } else { }
  }

  lemma PaceMade(p: Progress)
    ensures Pace(p) == Made(p, Left5(p.h.a), Choice(p.t, p.h.b, p.h.c, p.h.d), K(p.t), Left30(p.h.b),
                            Left1(p.w.w13 ^ p.w.w8 ^ p.w.w2 ^ p.w.w0))
  {
    PaceSum(p);
    hide Left1, Left5, Left30, Sum, Choice, K;
  }

  lemma PaceIs(p: Progress)
    ensures Pace(p) == Go(p)
  {
    hide Pace, Go, Made, Rotl, Left1, Left5, Left30, F, Choice, K;
    var h := p.h;
    Lefts(h.a);
    Lefts(h.b);
    Lefts(p.w.w13 ^ p.w.w8 ^ p.w.w2 ^ p.w.w0);
    GoMade(p);
    PaceMade(p);
    ChoiceIs(p.t, h.b, h.c, h.d);
  }

  function Four(p: Progress): Progress { Pace(Pace(Pace(Pace(p)))) }

  /** The variables after t rounds on a block, and the words that come. */
  predicate Tracks(m: seq<byte>, p: Progress)
    requires |m| == 64
  {
    var t, w := p.t, p.w;
    && p.h == Rounds(m, H0, t)
    && w.w0 == W(m, t) && w.w1 == W(m, t + 1) && w.w2 == W(m, t + 2) && w.w3 == W(m, t + 3)
    && w.w4 == W(m, t + 4) && w.w5 == W(m, t + 5) && w.w6 == W(m, t + 6) && w.w7 == W(m, t + 7)
    && w.w8 == W(m, t + 8) && w.w9 == W(m, t + 9) && w.w10 == W(m, t + 10) && w.w11 == W(m, t + 11)
    && w.w12 == W(m, t + 12) && w.w13 == W(m, t + 13) && w.w14 == W(m, t + 14) && w.w15 == W(m, t + 15)
  }

  lemma GoTracks(m: seq<byte>, p: Progress)
    requires |m| == 64 && Tracks(m, p)
    ensures Tracks(m, Go(p))
  {
    WordNext(m, p.t);
    RoundNext(m, p.t);
    hide W, Rounds, Mix, Round;
  }

  lemma WordNext(m: seq<byte>, t: nat)
    requires |m| == 64
    ensures W(m, t + 16) == Mix(W(m, t + 13), W(m, t + 8), W(m, t + 2), W(m, t))
  {
  }

  lemma RoundNext(m: seq<byte>, t: nat)
    requires |m| == 64
    ensures Rounds(m, H0, t + 1) == Round(t, Rounds(m, H0, t), W(m, t))
  {
    hide Round, W;
  }

  lemma FourTracks(m: seq<byte>, p: Progress)
    requires |m| == 64 && Tracks(m, p)
    ensures Tracks(m, Four(p))
  {
    hide Tracks, Go, Pace;
    PaceIs(p);
    GoTracks(m, p);
    PaceIs(Go(p));
    GoTracks(m, Go(p));
    PaceIs(Go(Go(p)));
    GoTracks(m, Go(Go(p)));
    PaceIs(Go(Go(Go(p))));
    GoTracks(m, Go(Go(Go(p))));
  }

  // The variables after some rounds on the block of the message, and the words of the schedule that come.

  const AFTER0 := Progress(0, Words(0x6745_2301, 0xEFCD_AB89, 0x98BA_DCFE, 0x1032_5476, 0xC3D2_E1F0), Next16(
      0x6162_6380, 0, 0, 0, 0, 0, 0, 0,
      0, 0, 0, 0, 0, 0, 0, 0x0000_0018))
  const AFTER4 := Progress(4, Words(0xCDD8_E11B, 0xA139_0F08, 0x6264_14DB, 0xC045_BF0C, 0x59D1_48C0), Next16(
      0, 0, 0, 0, 0, 0, 0, 0,
      0, 0, 0, 0x0000_0018, 0xC2C4_C700, 0, 0x0000_0030, 0x8589_8E01))
  const AFTER8 := Progress(8, Words(0x9E8C_07D4, 0x993E_30C1, 0x0FF1_F290, 0xB3F5_2677, 0xF376_3846), Next16(
      0, 0, 0, 0, 0, 0, 0, 0x0000_0018,
      0xC2C4_C700, 0, 0x0000_0030, 0x8589_8E01, 0, 0x0000_0060, 0x0B13_1C03, 0x0000_0030))
  const AFTER12 := Progress(12, Words(0x6318_8FE4, 0xFBDA_9E89, 0x60D4_7E4A, 0x12DA_B8CA, 0x27A3_01F5), Next16(
      0, 0, 0, 0x0000_0018, 0xC2C4_C700, 0, 0x0000_0030, 0x8589_8E01,
      0, 0x0000_0060, 0x0B13_1C03, 0x0000_0030, 0x8589_8EC1, 0x1626_3806, 0, 0x0000_0180))
  const AFTER16 := Progress(16, Words(0x20BD_D62F, 0x196B_EE77, 0x644A_3DA5, 0x1181_ED99, 0x18C6_23F9), Next16(
      0xC2C4_C700, 0, 0x0000_0030, 0x8589_8E01, 0, 0x0000_0060, 0x0B13_1C03, 0x0000_0030,
      0x8589_8EC1, 0x1626_3806, 0, 0x0000_0180, 0x2C4C_700C, 0x0000_00F0, 0x93AF_B507, 0x5898_E048))
  const AFTER20 := Progress(20, Words(0xFD9E_1D7D, 0xDC64_901D, 0x20AA_99CA, 0xD3A4_9608, 0xC82F_758B), Next16(
      0, 0x0000_0060, 0x0B13_1C03, 0x0000_0030, 0x8589_8EC1, 0x1626_3806, 0, 0x0000_0180,
      0x2C4C_700C, 0x0000_00F0, 0x93AF_B507, 0x5898_E048, 0x8E9A_9202, 0x0000_0600, 0xB131_C0F0, 0x1626_3BC6))
  const AFTER24 := Progress(24, Words(0xD541_F12D, 0x2128_3486, 0x0CE8_8EFF, 0x868D_EC32, 0x7F67_875F), Next16(
      0x8589_8EC1, 0x1626_3806, 0, 0x0000_0180, 0x2C4C_700C, 0x0000_00F0, 0x93AF_B507, 0x5898_E048,
      0x8E9A_9202, 0x0000_0600, 0xB131_C0F0, 0x1626_3BC6, 0x4EBE_D41E, 0x6263_80A1, 0x1626_3806, 0x0000_18C0))
  const AFTER28 := Progress(28, Words(0x4AA8_4D97, 0xBE35_FBD5, 0x1210_4EE9, 0xB1D5_9F71, 0x7550_7C4B), Next16(
      0x2C4C_700C, 0x0000_00F0, 0x93AF_B507, 0x5898_E048, 0x8E9A_9202, 0x0000_0600, 0xB131_C0F0, 0x1626_3BC6,
      0x4EBE_D41E, 0x6263_80A1, 0x1626_3806, 0x0000_18C0, 0xD2E1_38C4, 0x0000_0F00, 0x3AFB_5079, 0x898E_04E5))
  const AFTER32 := Progress(32, Words(0x3B84_5D33, 0x1267_B407, 0x717E_EBD7, 0xA0DC_2D4B, 0xD2AA_1365), Next16(
      0x8E9A_9202, 0x0000_0600, 0xB131_C0F0, 0x1626_3BC6, 0x4EBE_D41E, 0x6263_80A1, 0x1626_3806, 0x0000_18C0,
      0xD2E1_38C4, 0x0000_0F00, 0x3AFB_5079, 0x898E_04E5, 0xE2BA_3C2B, 0x0000_60C0, 0x053A_37CD, 0x7445_8547))
  const AFTER36 := Progress(36, Words(0xDCBB_B0CB, 0x2179_6AD4, 0x4B03_AF04, 0x811B_EA82, 0xCEE1_174C), Next16(
      0x4EBE_D41E, 0x6263_80A1, 0x1626_3806, 0x0000_18C0, 0xD2E1_38C4, 0x0000_0F00, 0x3AFB_5079, 0x898E_04E5,
      0xE2BA_3C2B, 0x0000_60C0, 0x053A_37CD, 0x7445_8547, 0xDA94_15ED, 0x2638_0A16, 0x6263_83A1, 0x4EBF_54DE))
  const AFTER40 := Progress(40, Words(0x32DE_1CBA, 0x4C98_6405, 0xF718_E5CF, 0x03D4_47F6, 0xF72E_EC32), Next16(
      0xD2E1_38C4, 0x0000_0F00, 0x3AFB_5079, 0x898E_04E5, 0xE2BA_3C2B, 0x0000_60C0, 0x053A_37CD, 0x7445_8547,
      0xDA94_15ED, 0x2638_0A16, 0x6263_83A1, 0x4EBF_54DE, 0x3835_B44B, 0x0000_F600, 0x1E84_C7A3, 0x98E0_4D98))
  const AFTER44 := Progress(44, Words(0xEE1B_1AAF, 0x7F19_3DC5, 0x25C2_8357, 0xFF21_F7B7, 0x8CB7_872E), Next16(
      0xE2BA_3C2B, 0x0000_60C0, 0x053A_37CD, 0x7445_8547, 0xDA94_15ED, 0x2638_0A16, 0x6263_83A1, 0x4EBF_54DE,
      0x3835_B44B, 0x0000_F600, 0x1E84_C7A3, 0x98E0_4D98, 0x651D_16A0, 0x6265_8CA1, 0x4585_44D6, 0x4458_4CB7))
  const AFTER48 := Progress(48, Words(0xBEAD_02CA, 0xA01B_846C, 0x8714_787C, 0x503C_A382, 0xFB86_C6AB), Next16(
      0xDA94_15ED, 0x2638_0A16, 0x6263_83A1, 0x4EBF_54DE, 0x3835_B44B, 0x0000_F600, 0x1E84_C7A3, 0x98E0_4D98,
      0x651D_16A0, 0x6265_8CA1, 0x4585_44D6, 0x4458_4CB7, 0x7BA0_6619, 0x6380_AEA2, 0x0AE5_5269, 0x627B_49A1))
  const AFTER52 := Progress(52, Words(0x3847_AD66, 0x641D_B2CE, 0x4481_CC71, 0xEEBC_E4CD, 0xAFAB_40B2), Next16(
      0x3835_B44B, 0x0000_F600, 0x1E84_C7A3, 0x98E0_4D98, 0x651D_16A0, 0x6265_8CA1, 0x4585_44D6, 0x4458_4CB7,
      0x7BA0_6619, 0x6380_AEA2, 0x0AE5_5269, 0x627B_49A1, 0x7CD4_5C9D, 0x000F_0000, 0xFB50_753A, 0xEC67_65E8))
  const AFTER56 := Progress(56, Words(0x5E64_56AF, 0x7B71_F76D, 0x09FA_7C76, 0x7924_10DB, 0x8E11_EB59), Next16(
      0x651D_16A0, 0x6265_8CA1, 0x4585_44D6, 0x4458_4CB7, 0x7BA0_6619, 0x6380_AEA2, 0x0AE5_5269, 0x627B_49A1,
      0x7CD4_5C9D, 0x000F_0000, 0xFB50_753A, 0xEC67_65E8, 0xBA3C_2BE2, 0x0060_C000, 0x3A37_CD05, 0x4585_46F4))
  const AFTER60 := Progress(60, Words(0x3F52_DE5A, 0x09D7_85FD, 0x3498_BFD4, 0xF211_824F, 0xD799_15AB), Next16(
      0x7BA0_6619, 0x6380_AEA2, 0x0AE5_5269, 0x627B_49A1, 0x7CD4_5C9D, 0x000F_0000, 0xFB50_753A, 0xEC67_65E8,
      0xBA3C_2BE2, 0x0060_C000, 0x3A37_CD05, 0x4585_46F4, 0xB859_9DD6, 0x380A_1A26, 0x01E0_2203, 0xE7CC_3456))
  const AFTER64 := Progress(64, Words(0x6B61_C9E1, 0xB66C_020B, 0x9523_272C, 0xF5D5_B051, 0x8FD4_B796), Next16(
      0x7CD4_5C9D, 0x000F_0000, 0xFB50_753A, 0xEC67_65E8, 0xBA3C_2BE2, 0x0060_C000, 0x3A37_CD05, 0x4585_46F4,
      0xB859_9DD6, 0x380A_1A26, 0x01E0_2203, 0xE7CC_3456, 0xE6E6_0B69, 0x00F6_0A00, 0x5795_EF4F, 0x822E_0879))
  const AFTER68 := Progress(68, Words(0x78DD_4D2B, 0x0C3D_F2B4, 0x4405_957E, 0x0677_E9EB, 0x5AD8_7278), Next16(
      0xBA3C_2BE2, 0x0060_C000, 0x3A37_CD05, 0x4585_46F4, 0xB859_9DD6, 0x380A_1A26, 0x01E0_2203, 0xE7CC_3456,
      0xE6E6_0B69, 0x00F6_0A00, 0x5795_EF4F, 0x822E_0879, 0x7E57_7CE2, 0x07EF_2103, 0x8544_E945, 0xEB39_DAB8))
  const AFTER72 := Progress(72, Words(0x3985_9DE7, 0xC199_F8C7, 0x8FC9_6230, 0x125C_24F0, 0xDE37_534A), Next16(
      0xB859_9DD6, 0x380A_1A26, 0x01E0_2203, 0xE7CC_3456, 0xE6E6_0B69, 0x00F6_0A00, 0x5795_EF4F, 0x822E_0879,
      0x7E57_7CE2, 0x07EF_2103, 0x8544_E945, 0xEB39_DAB8, 0xC205_991A, 0x80AE_CB63, 0x7D84_CA48, 0x7B49_9B62))
  const AFTER76 := Progress(76, Words(0x63F7_DAB7, 0x5EE7_6897, 0xC45E_4FDB, 0x3B6D_0B79, 0xCE61_6779), Next16(
      0xE6E6_0B69, 0x00F6_0A00, 0x5795_EF4F, 0x822E_0879, 0x7E57_7CE2, 0x07EF_2103, 0x8544_E945, 0xEB39_DAB8,
      0xC205_991A, 0x80AE_CB63, 0x7D84_CA48, 0x7B49_9B62, 0x8E80_10A8, 0x4B5B_8A77, 0x3216_B69A, 0x0507_E88D))
  const AFTER80 := Progress(80, Words(0x4254_1B35, 0x5738_D5E1, 0x2183_4873, 0x681E_6DF6, 0xD8FD_F6AD), Next16(
      0x7E57_7CE2, 0x07EF_2103, 0x8544_E945, 0xEB39_DAB8, 0xC205_991A, 0x80AE_CB63, 0x7D84_CA48, 0x7B49_9B62,
      0x8E80_10A8, 0x4B5B_8A77, 0x3216_B69A, 0x0507_E88D, 0x705B_EE96, 0x60C0_FF00, 0xA283_62D0, 0x1DA6_B91D))

  function At(k: nat): Progress {
    match k
    case 0 => AFTER0
    case 1 => AFTER4
    case 2 => AFTER8
    case 3 => AFTER12
    case 4 => AFTER16
    case 5 => AFTER20
    case 6 => AFTER24
    case 7 => AFTER28
    case 8 => AFTER32
    case 9 => AFTER36
    case 10 => AFTER40
    case 11 => AFTER44
    case 12 => AFTER48
    case 13 => AFTER52
    case 14 => AFTER56
    case 15 => AFTER60
    case 16 => AFTER64
    case 17 => AFTER68
    case 18 => AFTER72
    case 19 => AFTER76
    case _ => AFTER80
  }

  lemma Step0() ensures Four(AFTER0) == AFTER4 { }
  lemma Step4() ensures Four(AFTER4) == AFTER8 { }
  lemma Step8() ensures Four(AFTER8) == AFTER12 { }
  lemma Step12() ensures Four(AFTER12) == AFTER16 { }
  lemma Step16() ensures Four(AFTER16) == AFTER20 { }
  lemma Step20() ensures Four(AFTER20) == AFTER24 { }
  lemma Step24() ensures Four(AFTER24) == AFTER28 { }
  lemma Step28() ensures Four(AFTER28) == AFTER32 { }
  lemma Step32() ensures Four(AFTER32) == AFTER36 { }
  lemma Step36() ensures Four(AFTER36) == AFTER40 { }
  lemma Step40() ensures Four(AFTER40) == AFTER44 { }
  lemma Step44() ensures Four(AFTER44) == AFTER48 { }
  lemma Step48() ensures Four(AFTER48) == AFTER52 { }
  lemma Step52() ensures Four(AFTER52) == AFTER56 { }
  lemma Step56() ensures Four(AFTER56) == AFTER60 { }
  lemma Step60() ensures Four(AFTER60) == AFTER64 { }
  lemma Step64() ensures Four(AFTER64) == AFTER68 { }
  lemma Step68() ensures Four(AFTER68) == AFTER72 { }
  lemma Step72() ensures Four(AFTER72) == AFTER76 { }
  lemma Step76() ensures Four(AFTER76) == AFTER80 { }

  lemma Step(k: nat)
    requires k < 20
    ensures Four(At(k)) == At(k + 1)
  {
    hide Four;
    hide AFTER0, AFTER4, AFTER8, AFTER12, AFTER16, AFTER20, AFTER24, AFTER28, AFTER32, AFTER36, AFTER40;
    hide AFTER44, AFTER48, AFTER52, AFTER56, AFTER60, AFTER64, AFTER68, AFTER72, AFTER76, AFTER80;
    match k
    case 0 => Step0();
    case 1 => Step4();
    case 2 => Step8();
    case 3 => Step12();
    case 4 => Step16();
    case 5 => Step20();
    case 6 => Step24();
    case 7 => Step28();
    case 8 => Step32();
    case 9 => Step36();
    case 10 => Step40();
    case 11 => Step44();
    case 12 => Step48();
    case 13 => Step52();
    case 14 => Step56();
    case 15 => Step60();
    case 16 => Step64();
    case 17 => Step68();
    case 18 => Step72();
    case _ => Step76();
  }

  lemma {:induction false} Reached(m: seq<byte>, k: nat)
    requires |m| == 64 && k <= 20 && Tracks(m, At(0))
    ensures Tracks(m, At(k))
  {
    hide Tracks, At, Four;
    if k > 0 {
      Reached(m, k - 1);
      FourTracks(m, At(k - 1));
      Step(k - 1);
    }
  }

  /** The block of the message: its bytes, the end mark, zeros, and its 24 bits. */
  lemma Block(m: seq<byte>)
    requires m == ABC + Padding(3)
    ensures |m| == 64 && m[0] == 0x61 && m[1] == 0x62 && m[2] == 0x63 && m[3] == 0x80 && m[63] == 0x18
    ensures forall i | 4 <= i < 63 :: m[i] == 0
  {
    hide Octets;
    assert Gap(3) == 52 && BitLength(3) == 24;
    Octets24();
  }

  lemma Octets24()
    ensures Octets(24, 8) == [0, 0, 0, 0, 0, 0, 0, 0x18]
  {
    hide BigEndian, Octets;
    var b: seq<byte> := [0, 0, 0, 0, 0, 0, 0, 0x18];
    BigEndian8(b);
    OctetsBigEndian(b);
  }

  lemma FirstSchedule(m: seq<byte>)
    requires m == ABC + Padding(3)
    ensures |m| == 64 && W(m, 0) == 0x6162_6380 && W(m, 15) == 0x18 && forall t | 1 <= t < 15 :: W(m, t) == 0
  {
    Block(m);
    WordOfBlock();
    hide Padding, WordOf;
    assert forall t | 1 <= t < 15 :: W(m, t) == WordOf(0, 0, 0, 0);
    assert W(m, 0) == WordOf(0x61, 0x62, 0x63, 0x80) && W(m, 15) == WordOf(0, 0, 0, 0x18);
  }

  lemma Start(m: seq<byte>)
    requires m == ABC + Padding(3)
    ensures |m| == 64 && Tracks(m, AFTER0)
  {
    hide W, Rounds, Tracks, Padding;
    FirstSchedule(m);
    OpeningWords(m, 0x6162_6380, 0, 0x18);
  }

  lemma OpeningWords(m: seq<byte>, first: word, zero: word, last: word)
    requires |m| == 64 && W(m, 0) == first && W(m, 15) == last && forall t | 1 <= t < 15 :: W(m, t) == zero
    ensures Tracks(m, Progress(0, H0, Next16(first, zero, zero, zero, zero, zero, zero, zero,
                                             zero, zero, zero, zero, zero, zero, zero, last)))
  {
    hide W;
    assert Rounds(m, H0, 0) == H0;
    hide Rounds;
  }

  lemma WordOfBlock()
    ensures WordOf(0x61, 0x62, 0x63, 0x80) == 0x6162_6380 && WordOf(0, 0, 0, 0) == 0 && WordOf(0, 0, 0, 0x18) == 0x18
  {
  }

  /** FIPS 180: the digest of "abc". */
  lemma Abc()
    ensures Digest(ABC) == [0xA9, 0x99, 0x3E, 0x36, 0x47, 0x06, 0x81, 0x6A, 0xBA, 0x3E,
                            0x25, 0x71, 0x78, 0x50, 0xC2, 0x6C, 0x9C, 0xD0, 0xD8, 0x9D]
  {
    var m := ABC + Padding(3);
    Hashed(m);
    hide HashBlocks;
    Bytes20(Words(0xA999_3E36, 0x4706_816A, 0xBA3E_2571, 0x7850_C26C, 0x9CD0_D89D));
  }

  lemma Hashed(m: seq<byte>)
    requires m == ABC + Padding(3)
    ensures |m| == 64 && HashBlocks(m) == Words(0xA999_3E36, 0x4706_816A, 0xBA3E_2571, 0x7850_C26C, 0x9CD0_D89D)
  {
    hide HashBlocks, At, Tracks, Padding;
    hide AFTER0, AFTER4, AFTER8, AFTER12, AFTER16, AFTER20, AFTER24, AFTER28, AFTER32, AFTER36, AFTER40;
    hide AFTER44, AFTER48, AFTER52, AFTER56, AFTER60, AFTER64, AFTER68, AFTER72, AFTER76, AFTER80;
    Start(m);
    Ends();
    Reached(m, 20);
    LastSum(m);
  }

  lemma Ends()
    ensures At(0) == AFTER0 && At(20) == AFTER80
  {
    hide AFTER0, AFTER4, AFTER8, AFTER12, AFTER16, AFTER20, AFTER24, AFTER28, AFTER32, AFTER36, AFTER40;
    hide AFTER44, AFTER48, AFTER52, AFTER56, AFTER60, AFTER64, AFTER68, AFTER72, AFTER76, AFTER80;
  }

  lemma LastSum(m: seq<byte>)
    requires |m| == 64 && Tracks(m, AFTER80)
    ensures HashBlocks(m) == Words(0xA999_3E36, 0x4706_816A, 0xBA3E_2571, 0x7850_C26C, 0x9CD0_D89D)
  {
    assert m[..0] == [] && m[0..] == m;
    assert HashBlocks([]) == H0;
    hide Rounds, W;
    assert Plus(H0, AFTER80.h) == Words(0xA999_3E36, 0x4706_816A, 0xBA3E_2571, 0x7850_C26C, 0x9CD0_D89D);
  }

  lemma Bytes20(h: Words)
    requires h == Words(0xA999_3E36, 0x4706_816A, 0xBA3E_2571, 0x7850_C26C, 0x9CD0_D89D)
    ensures WordBytes(h.a) + WordBytes(h.b) + WordBytes(h.c) + WordBytes(h.d) + WordBytes(h.e) ==
              [0xA9, 0x99, 0x3E, 0x36, 0x47, 0x06, 0x81, 0x6A, 0xBA, 0x3E,
               0x25, 0x71, 0x78, 0x50, 0xC2, 0x6C, 0x9C, 0xD0, 0xD8, 0x9D]
  {
  }
}
