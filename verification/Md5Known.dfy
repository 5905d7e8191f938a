/** Digests that RFC 1321 lists in its appendix A.5, worked out from the definition step by step. */
module Md5Known {
  import opened Bits
  import opened Md5Spec
  import opened Md5Digits

  /** The words of a padded message of less than four bytes. */
  predicate Short(x: seq<word>, first: word, bits: word)
  {
    |x| == 16 && x[0] == first && x[14] == bits && forall i :: 1 <= i < 16 && i != 14 ==> x[i] == 0
  }

  /** Byte k of a padded message of less than four bytes. */
  function PaddedByte(m: seq<byte>, k: nat): byte
    requires |m| < 4
  {
    if k < |m| then m[k] else if k == |m| then 0x80 else if k == 56 then 8 * |m| else 0
  }

  function PaddedWord(m: seq<byte>, i: nat): word
    requires |m| < 4
  {
    Word(PaddedByte(m, 4 * i), PaddedByte(m, 4 * i + 1), PaddedByte(m, 4 * i + 2), PaddedByte(m, 4 * i + 3))
  }

  lemma PaddedBytes(m: seq<byte>)
    requires |m| < 4
    ensures |Padded(m)| == 64 && forall k :: 0 <= k < 64 ==> Padded(m)[k] == PaddedByte(m, k)
  {
    hide LengthBytes, PaddedByte;
    var p := Padded(m);
    assert (55 - |m|) % 64 == 55 - |m|;
    assert p == m + ([0x80] + Zeros(55 - |m|) + LengthBytes(|m|));
    assert p[..56] == m + ([0x80] + Zeros(55 - |m|)) && p[56..] == LengthBytes(|m|);
    forall k | 0 <= k < 64 ensures p[k] == PaddedByte(m, k) {
      ByteIs(m, k);
      if k >= 56 {
        LengthIs(|m|, k - 56);
        assert p[k] == p[56..][k - 56];
      } else {
        assert p[k] == p[..56][k];
      }
    }
  }

  lemma ByteIs(m: seq<byte>, k: nat)
    requires |m| < 4
    ensures PaddedByte(m, k)
      == if k < |m| then m[k] else if k == |m| then 0x80 else if k == 56 then 8 * |m| else 0
  {
  }

  lemma LengthIs(n: nat, k: nat)
    requires n < 4 && k < 8
    ensures LengthBytes(n)[k] == if k == 0 then 8 * n else 0
  {
    assert 8 * n % 0x1_0000_0000_0000_0000 == 8 * n < 256;
  }

  lemma ShortWords(m: seq<byte>)
    requires |m| < 4
    ensures |Padded(m)| == 64
    ensures Short(Words(Padded(m)), PaddedWord(m, 0), 8 * |m|)
  {
    hide Padded, PaddedByte, Word;
    PaddedBytes(m);
    var p := Padded(m);
    forall i | 0 <= i < 16 ensures Words(p)[i] == PaddedWord(m, i) {
    }
    forall i | 1 <= i < 16 ensures Words(p)[i] == if i == 14 then 8 * |m| else 0 {
      LaterWord(m, i);
    }
  }

  lemma LaterWord(m: seq<byte>, i: nat)
    requires |m| < 4 && 1 <= i < 16
    ensures PaddedWord(m, i) == if i == 14 then 8 * |m| else 0
  {
  }

  lemma Whole(m: seq<byte>)
    requires |m| < 4
    ensures |Padded(m)| == 64 && Digest(m) == Output(Compress(START, Padded(m)))
  {
    hide Words, Compress, Output, Padded, Blocks;
    ShortWords(m);
    OneBlock(START, Padded(m));
  }

  lemma CompressIs(h: State, block: seq<byte>, r: State)
    requires |block| == 64
    requires var x := Words(block); Round(Round(Round(Round(h, 0, x), 1, x), 2, x), 3, x) == r
    ensures Compress(h, block) == State(Plus(h.a, r.a), Plus(h.b, r.b), Plus(h.c, r.c), Plus(h.d, r.d))
  {
    hide Round, Words;
  }

  lemma WordBytesIs(w: word, b0: byte, b1: byte, b2: byte, b3: byte)
    requires w == b0 + 0x100 * (b1 + 0x100 * (b2 + 0x100 * b3))
    ensures WordBytes(w) == [b0, b1, b2, b3]
  {
    LowByte(b0, b1 + 0x100 * (b2 + 0x100 * b3));
    LowByte(b1, b2 + 0x100 * b3);
    LowByte(b2, b3);
    Shifted(w);
  }

  lemma LowByte(b: byte, x: nat)
    ensures (b + 0x100 * x) % 256 == b && (b + 0x100 * x) / 0x100 == x
  {
  }

  lemma Shifted(w: nat)
    ensures w / 0x1_0000 == w / 0x100 / 0x100 && w / 0x100_0000 == w / 0x100 / 0x100 / 0x100
  {
  }

  // ---- the constants, words and rotations of the sixteen times four steps ----

  lemma Plan0()
    ensures T(0) == Four(0xd76a_a478, 0xe8c7_b756, 0x2420_70db, 0xc1bd_ceee)
    ensures K(0) == 0 && K(1) == 1 && K(2) == 2 && K(3) == 3
    ensures S(0, 0) == 7 && S(0, 1) == 12 && S(0, 2) == 17 && S(0, 3) == 22
  {
  }

  lemma Plan1()
    ensures T(1) == Four(0xf57c_0faf, 0x4787_c62a, 0xa830_4613, 0xfd46_9501)
    ensures K(4) == 4 && K(5) == 5 && K(6) == 6 && K(7) == 7
    ensures S(0, 0) == 7 && S(0, 1) == 12 && S(0, 2) == 17 && S(0, 3) == 22
  {
  }

  lemma Plan2()
    ensures T(2) == Four(0x6980_98d8, 0x8b44_f7af, 0xffff_5bb1, 0x895c_d7be)
    ensures K(8) == 8 && K(9) == 9 && K(10) == 10 && K(11) == 11
    ensures S(0, 0) == 7 && S(0, 1) == 12 && S(0, 2) == 17 && S(0, 3) == 22
  {
  }

  lemma Plan3()
    ensures T(3) == Four(0x6b90_1122, 0xfd98_7193, 0xa679_438e, 0x49b4_0821)
    ensures K(12) == 12 && K(13) == 13 && K(14) == 14 && K(15) == 15
    ensures S(0, 0) == 7 && S(0, 1) == 12 && S(0, 2) == 17 && S(0, 3) == 22
  {
  }

  lemma Plan4()
    ensures T(4) == Four(0xf61e_2562, 0xc040_b340, 0x265e_5a51, 0xe9b6_c7aa)
    ensures K(16) == 1 && K(17) == 6 && K(18) == 11 && K(19) == 0
    ensures S(1, 0) == 5 && S(1, 1) == 9 && S(1, 2) == 14 && S(1, 3) == 20
  {
  }

  lemma Plan5()
    ensures T(5) == Four(0xd62f_105d, 0x0244_1453, 0xd8a1_e681, 0xe7d3_fbc8)
    ensures K(20) == 5 && K(21) == 10 && K(22) == 15 && K(23) == 4
    ensures S(1, 0) == 5 && S(1, 1) == 9 && S(1, 2) == 14 && S(1, 3) == 20
  {
  }

  lemma Plan6()
    ensures T(6) == Four(0x21e1_cde6, 0xc337_07d6, 0xf4d5_0d87, 0x455a_14ed)
    ensures K(24) == 9 && K(25) == 14 && K(26) == 3 && K(27) == 8
    ensures S(1, 0) == 5 && S(1, 1) == 9 && S(1, 2) == 14 && S(1, 3) == 20
  {
  }

  lemma Plan7()
    ensures T(7) == Four(0xa9e3_e905, 0xfcef_a3f8, 0x676f_02d9, 0x8d2a_4c8a)
    ensures K(28) == 13 && K(29) == 2 && K(30) == 7 && K(31) == 12
    ensures S(1, 0) == 5 && S(1, 1) == 9 && S(1, 2) == 14 && S(1, 3) == 20
  {
  }

  lemma Plan8()
    ensures T(8) == Four(0xfffa_3942, 0x8771_f681, 0x6d9d_6122, 0xfde5_380c)
    ensures K(32) == 5 && K(33) == 8 && K(34) == 11 && K(35) == 14
    ensures S(2, 0) == 4 && S(2, 1) == 11 && S(2, 2) == 16 && S(2, 3) == 23
  {
  }

  lemma Plan9()
    ensures T(9) == Four(0xa4be_ea44, 0x4bde_cfa9, 0xf6bb_4b60, 0xbebf_bc70)
    ensures K(36) == 1 && K(37) == 4 && K(38) == 7 && K(39) == 10
    ensures S(2, 0) == 4 && S(2, 1) == 11 && S(2, 2) == 16 && S(2, 3) == 23
  {
  }

  lemma Plan10()
    ensures T(10) == Four(0x289b_7ec6, 0xeaa1_27fa, 0xd4ef_3085, 0x0488_1d05)
    ensures K(40) == 13 && K(41) == 0 && K(42) == 3 && K(43) == 6
    ensures S(2, 0) == 4 && S(2, 1) == 11 && S(2, 2) == 16 && S(2, 3) == 23
  {
  }

  lemma Plan11()
    ensures T(11) == Four(0xd9d4_d039, 0xe6db_99e5, 0x1fa2_7cf8, 0xc4ac_5665)
    ensures K(44) == 9 && K(45) == 12 && K(46) == 15 && K(47) == 2
    ensures S(2, 0) == 4 && S(2, 1) == 11 && S(2, 2) == 16 && S(2, 3) == 23
  {
  }

  lemma Plan12()
    ensures T(12) == Four(0xf429_2244, 0x432a_ff97, 0xab94_23a7, 0xfc93_a039)
    ensures K(48) == 0 && K(49) == 7 && K(50) == 14 && K(51) == 5
    ensures S(3, 0) == 6 && S(3, 1) == 10 && S(3, 2) == 15 && S(3, 3) == 21
  {
  }

  lemma Plan13()
    ensures T(13) == Four(0x655b_59c3, 0x8f0c_cc92, 0xffef_f47d, 0x8584_5dd1)
    ensures K(52) == 12 && K(53) == 3 && K(54) == 10 && K(55) == 1
    ensures S(3, 0) == 6 && S(3, 1) == 10 && S(3, 2) == 15 && S(3, 3) == 21
  {
  }

  lemma Plan14()
    ensures T(14) == Four(0x6fa8_7e4f, 0xfe2c_e6e0, 0xa301_4314, 0x4e08_11a1)
    ensures K(56) == 8 && K(57) == 15 && K(58) == 6 && K(59) == 13
    ensures S(3, 0) == 6 && S(3, 1) == 10 && S(3, 2) == 15 && S(3, 3) == 21
  {
  }

  lemma Plan15()
    ensures T(15) == Four(0xf753_7e82, 0xbd3a_f235, 0x2ad7_d2bb, 0xeb86_d391)
    ensures K(60) == 4 && K(61) == 11 && K(62) == 2 && K(63) == 9
    ensures S(3, 0) == 6 && S(3, 1) == 10 && S(3, 2) == 15 && S(3, 3) == 21
  {
  }

  // ---- the steps on no bytes ----

  lemma Empty0(x: seq<word>)
    requires Short(x, 0x80, 0)
    ensures FourSteps(State(0x6745_2301, 0xefcd_ab89, 0x98ba_dcfe, 0x1032_5476), 0, x)
      == State(0xa520_2774, 0x1b16_3203, 0xe7f0_6b23, 0xf595_92dd)
  {
    hide Pow2, Step, Fun, Bits4.Right, T, K, S;
    Powers();
    Plan0();
    var d := Number(0x1032_5476, Hex(x1, x0, x3, x2, x5, x4, x7, x6));
    var c := Number(0x98ba_dcfe, Hex(x9, x8, xb, xa, xd, xc, xf, xe));
    var b := Number(0xefcd_ab89, Hex(xe, xf, xc, xd, xa, xb, x8, x9));
    Next(0, 0x6745_2301, b, c, d, Number(0x98ba_dcfe, Hex(x9, x8, xb, xa, xd, xc, xf, xe)), 0x80, 0xd76a_a478,
         7, 0x80, 0x200_0000, 1, 0x6b, 0x16a_a4f7, 1, 0xa520_2774);
    var e0 := Number(0xa520_2774, Hex(xa, x5, x2, x0, x2, x7, x7, x4));
    Next(0, 0x1032_5476, e0, b, c, Number(0xbd9a_fb8a, Hex(xb, xd, x9, xa, xf, xb, x8, xa)), 0, 0xe8c7_b756,
         12, 0x1000, 0x10_0000, 1, 0xb69, 0x5_0756, 0, 0xf595_92dd);
    var e1 := Number(0xf595_92dd, Hex(xf, x5, x9, x5, x9, x2, xd, xd));
    Next(0, 0x98ba_dcfe, e1, e0, b, Number(0xaf48_2b54, Hex(xa, xf, x4, x8, x2, xb, x5, x4)), 0, 0x2420_70db,
         17, 0x2_0000, 0x8000, 1, 0xd846, 0x792d, 1, 0xe7f0_6b23);
    var e2 := Number(0xe7f0_6b23, Hex(xe, x7, xf, x0, x6, xb, x2, x3));
    Next(0, 0xefcd_ab89, e2, e1, e0, Number(0xe590_0655, Hex(xe, x5, x9, x0, x0, x6, x5, x5)), 0, 0xc1bd_ceee,
         22, 0x40_0000, 0x400, 2, 0x25_c6e0, 0xcc, 1, 0x1b16_3203);
  }

  lemma Empty1(x: seq<word>)
    requires Short(x, 0x80, 0)
    ensures FourSteps(State(0xa520_2774, 0x1b16_3203, 0xe7f0_6b23, 0xf595_92dd), 1, x)
      == State(0x3203_3344, 0x9bc1_3ce9, 0xf5b1_58db, 0x2f35_d494)
  {
    hide Pow2, Step, Fun, Bits4.Right, T, K, S;
    Powers();
    Plan1();
    var d := Number(0xf595_92dd, Hex(xf, x5, x9, x5, x9, x2, xd, xd));
    var c := Number(0xe7f0_6b23, Hex(xe, x7, xf, x0, x6, xb, x2, x3));
    var b := Number(0x1b16_3203, Hex(x1, xb, x1, x6, x3, x2, x0, x3));
    Next(0, 0xa520_2774, b, c, d, Number(0xe791_a2df, Hex(xe, x7, x9, x1, xa, x2, xd, xf)), 0, 0xf57c_0faf,
         7, 0x80, 0x200_0000, 2, 0x41, 0x2d_da02, 0, 0x3203_3344);
    var e0 := Number(0x3203_3344, Hex(x3, x2, x0, x3, x3, x3, x4, x4));
    Next(0, 0xf595_92dd, e0, b, c, Number(0xd7f2_7a23, Hex(xd, x7, xf, x2, x7, xa, x2, x3)), 0, 0x4787_c62a,
         12, 0x1000, 0x10_0000, 2, 0x150, 0xf_d32a, 1, 0x2f35_d494);
    var e1 := Number(0x2f35_d494, Hex(x2, xf, x3, x5, xd, x4, x9, x4));
    Next(0, 0xe7f0_6b23, e1, e0, b, Number(0x3203_3207, Hex(x3, x2, x0, x3, x3, x2, x0, x7)), 0, 0xa830_4613,
         17, 0x2_0000, 0x8000, 1, 0x1_8447, 0x633d, 0, 0xf5b1_58db);
    var e2 := Number(0xf5b1_58db, Hex(xf, x5, xb, x1, x5, x8, xd, xb));
    Next(0, 0x1b16_3203, e2, e1, e0, Number(0x2733_7394, Hex(x2, x7, x3, x3, x7, x3, x9, x4)), 0, 0xfd46_9501,
         22, 0x40_0000, 0x400, 1, 0xf_e40e, 0x298, 1, 0x9bc1_3ce9);
  }

  lemma Empty2(x: seq<word>)
    requires Short(x, 0x80, 0)
    ensures FourSteps(State(0x3203_3344, 0x9bc1_3ce9, 0xf5b1_58db, 0x2f35_d494), 2, x)
      == State(0x3893_b991, 0x7076_8a29, 0xe1ef_0576, 0xfce4_a312)
  {
    hide Pow2, Step, Fun, Bits4.Right, T, K, S;
    Powers();
    Plan2();
    var d := Number(0x2f35_d494, Hex(x2, xf, x3, x5, xd, x4, x9, x4));
    var c := Number(0xf5b1_58db, Hex(xf, x5, xb, x1, x5, x8, xd, xb));
    var b := Number(0x9bc1_3ce9, Hex(x9, xb, xc, x1, x3, xc, xe, x9));
    Next(0, 0x3203_3344, b, c, d, Number(0xb5b5_d8dd, Hex(xb, x5, xb, x5, xd, x8, xd, xd)), 0, 0x6980_98d8,
         7, 0x80, 0x200_0000, 1, 0x28, 0x139_a4f9, 1, 0x3893_b991);
    var e0 := Number(0x3893_b991, Hex(x3, x8, x9, x3, xb, x9, x9, x1));
    Next(0, 0x2f35_d494, e0, b, c, Number(0xdda1_78cb, Hex(xd, xd, xa, x1, x7, x8, xc, xb)), 0, 0x8b44_f7af,
         12, 0x1000, 0x10_0000, 1, 0x981, 0xc_450e, 0, 0xfce4_a312);
    var e1 := Number(0xfce4_a312, Hex(xf, xc, xe, x4, xa, x3, x1, x2));
    Next(0, 0xf5b1_58db, e1, e0, b, Number(0x3b81_bdf9, Hex(x3, xb, x8, x1, xb, xd, xf, x9)), 0, 0xffff_5bb1,
         17, 0x2_0000, 0x8000, 2, 0x6264, 0x7285, 1, 0xe1ef_0576);
    var e2 := Number(0xe1ef_0576, Hex(xe, x1, xe, xf, x0, x5, x7, x6));
    Next(0, 0x9bc1_3ce9, e2, e1, e0, Number(0xf8f4_b993, Hex(xf, x8, xf, x4, xb, x9, x9, x3)), 0, 0x895c_d7be,
         22, 0x40_0000, 0x400, 2, 0x7_84b3, 0x23a, 1, 0x7076_8a29);
  }

  lemma Empty3(x: seq<word>)
    requires Short(x, 0x80, 0)
    ensures FourSteps(State(0x3893_b991, 0x7076_8a29, 0xe1ef_0576, 0xfce4_a312), 3, x)
      == State(0xf56c_7cf1, 0xd681_9c6a, 0x5aa5_3f75, 0x3749_43a7)
  {
    hide Pow2, Step, Fun, Bits4.Right, T, K, S;
    Powers();
    Plan3();
    var d := Number(0xfce4_a312, Hex(xf, xc, xe, x4, xa, x3, x1, x2));
    var c := Number(0xe1ef_0576, Hex(xe, x1, xe, xf, x0, x5, x7, x6));
    var b := Number(0x7076_8a29, Hex(x7, x0, x7, x6, x8, xa, x2, x9));
    Next(0, 0x3893_b991, b, c, d, Number(0xece6_2132, Hex(xe, xc, xe, x6, x2, x1, x3, x2)), 0, 0x6b90_1122,
         7, 0x80, 0x200_0000, 1, 0x48, 0x109_ebe5, 0, 0xf56c_7cf1);
    var e0 := Number(0xf56c_7cf1, Hex(xf, x5, x6, xc, x7, xc, xf, x1));
    Next(0, 0xfce4_a312, e0, b, c, Number(0x70e7_0927, Hex(x7, x0, xe, x7, x0, x9, x2, x7)), 0, 0xfd98_7193,
         12, 0x1000, 0x10_0000, 2, 0x6b6, 0x4_1dcc, 1, 0x3749_43a7);
    var e1 := Number(0x3749_43a7, Hex(x3, x7, x4, x9, x4, x3, xa, x7));
    Next(0, 0xe1ef_0576, e1, e0, b, Number(0x757e_c8a9, Hex(x7, x5, x7, xe, xc, x8, xa, x9)), 0, 0xa679_438e,
         17, 0x2_0000, 0x8000, 1, 0x1_fbce, 0x11ad, 0, 0x5aa5_3f75);
    var e2 := Number(0x5aa5_3f75, Hex(x5, xa, xa, x5, x3, xf, x7, x5));
    Next(0, 0x7076_8a29, e2, e1, e0, Number(0xb749_43a5, Hex(xb, x7, x4, x9, x4, x3, xa, x5)), 0, 0x49b4_0821,
         22, 0x40_0000, 0x400, 1, 0x1c_5cf5, 0x1ef, 0, 0xd681_9c6a);
  }

  lemma Empty4(x: seq<word>)
    requires Short(x, 0x80, 0)
    ensures FourSteps(State(0xf56c_7cf1, 0xd681_9c6a, 0x5aa5_3f75, 0x3749_43a7), 4, x)
      == State(0x1c7d_7513, 0xbd78_2e17, 0xc095_f13a, 0x7bd5_7a3a)
  {
    hide Pow2, Step, Fun, Bits4.Right, T, K, S;
    Powers();
    Plan4();
    var d := Number(0x3749_43a7, Hex(x3, x7, x4, x9, x4, x3, xa, x7));
    var c := Number(0x5aa5_3f75, Hex(x5, xa, xa, x5, x3, xf, x7, x5));
    var b := Number(0xd681_9c6a, Hex(xd, x6, x8, x1, x9, xc, x6, xa));
    Next(1, 0xf56c_7cf1, b, c, d, Number(0x5ea5_3c72, Hex(x5, xe, xa, x5, x3, xc, x7, x2)), 0, 0xf61e_2562,
         5, 0x20, 0x800_0000, 2, 0x9, 0x22f_dec5, 1, 0x1c7d_7513);
    var e0 := Number(0x1c7d_7513, Hex(x1, xc, x7, xd, x7, x5, x1, x3));
    Next(1, 0x3749_43a7, e0, b, c, Number(0x9c25_b51b, Hex(x9, xc, x2, x5, xb, x5, x1, xb)), 0, 0xc040_b340,
         9, 0x200, 0x80_0000, 1, 0x127, 0x2f_ac02, 0, 0x7bd5_7a3a);
    var e1 := Number(0x7bd5_7a3a, Hex(x7, xb, xd, x5, x7, xa, x3, xa));
    Next(1, 0x5aa5_3f75, e1, e0, b, Number(0x5afd_793b, Hex(x5, xa, xf, xd, x7, x9, x3, xb)), 0, 0x265e_5a51,
         14, 0x4000, 0x4_0000, 0, 0x3700, 0x1_1301, 0, 0xc095_f13a);
    var e2 := Number(0xc095_f13a, Hex(xc, x0, x9, x5, xf, x1, x3, xa));
    Next(1, 0xd681_9c6a, e2, e1, e0, Number(0x6395_7b3a, Hex(x6, x3, x9, x5, x7, xb, x3, xa)), 0x80, 0xe9b6_c7aa,
         20, 0x10_0000, 0x1000, 2, 0x2_3cdd, 0xfce, 1, 0xbd78_2e17);
  }

  lemma Empty5(x: seq<word>)
    requires Short(x, 0x80, 0)
    ensures FourSteps(State(0x1c7d_7513, 0xbd78_2e17, 0xc095_f13a, 0x7bd5_7a3a), 5, x)
      == State(0x3d1e_3e6c, 0xe422_531a, 0xeb41_643e, 0x68b7_b3e3)
  {
    hide Pow2, Step, Fun, Bits4.Right, T, K, S;
    Powers();
    Plan5();
    var d := Number(0x7bd5_7a3a, Hex(x7, xb, xd, x5, x7, xa, x3, xa));
    var c := Number(0xc095_f13a, Hex(xc, x0, x9, x5, xf, x1, x3, xa));
    var b := Number(0xbd78_2e17, Hex(xb, xd, x7, x8, x2, xe, x1, x7));
    Next(1, 0x1c7d_7513, b, c, d, Number(0xb950_ab12, Hex(xb, x9, x5, x0, xa, xb, x1, x2)), 0, 0xd62f_105d,
         5, 0x20, 0x800_0000, 1, 0x15, 0x3fd_3082, 1, 0x3d1e_3e6c);
    var e0 := Number(0x3d1e_3e6c, Hex(x3, xd, x1, xe, x3, xe, x6, xc));
    Next(1, 0x7bd5_7a3a, e0, b, c, Number(0x3d7c_3e2d, Hex(x3, xd, x7, xc, x3, xe, x2, xd)), 0, 0x0244_1453,
         9, 0x200, 0x80_0000, 0, 0x177, 0x15_ccba, 0, 0x68b7_b3e3);
    var e1 := Number(0x68b7_b3e3, Hex(x6, x8, xb, x7, xb, x3, xe, x3));
    Next(1, 0xc095_f13a, e1, e0, b, Number(0x2836_326b, Hex(x2, x8, x3, x6, x3, x2, x6, xb)), 0, 0xd8a1_e681,
         14, 0x4000, 0x4_0000, 1, 0x305b, 0x2_0a26, 0, 0xeb41_643e);
    var e2 := Number(0xeb41_643e, Hex(xe, xb, x4, x1, x6, x4, x3, xe));
    Next(1, 0xbd78_2e17, e2, e1, e0, Number(0x69a1_a5af, Hex(x6, x9, xa, x1, xa, x5, xa, xf)), 0, 0xe7d3_fbc8,
         20, 0x10_0000, 0x1000, 2, 0xeedc, 0xf8e, 1, 0xe422_531a);
  }

  lemma Empty6(x: seq<word>)
    requires Short(x, 0x80, 0)
    ensures FourSteps(State(0x3d1e_3e6c, 0xe422_531a, 0xeb41_643e, 0x68b7_b3e3), 6, x)
      == State(0x306e_c122, 0xa057_2807, 0xa3c6_63da, 0xd28c_77c2)
  {
    hide Pow2, Step, Fun, Bits4.Right, T, K, S;
    Powers();
    Plan6();
    var d := Number(0x68b7_b3e3, Hex(x6, x8, xb, x7, xb, x3, xe, x3));
    var c := Number(0xeb41_643e, Hex(xe, xb, x4, x1, x6, x4, x3, xe));
    var b := Number(0xe422_531a, Hex(xe, x4, x2, x2, x5, x3, x1, xa));
    Next(1, 0x3d1e_3e6c, b, c, d, Number(0xe362_571e, Hex(xe, x3, x6, x2, x5, x7, x1, xe)), 0, 0x21e1_cde6,
         5, 0x20, 0x800_0000, 1, 0x8, 0x262_6370, 1, 0x306e_c122);
    var e0 := Number(0x306e_c122, Hex(x3, x0, x6, xe, xc, x1, x2, x2));
    Next(1, 0x68b7_b3e3, e0, b, c, Number(0x2462_5322, Hex(x2, x4, x6, x2, x5, x3, x2, x2)), 0, 0xc337_07d6,
         9, 0x200, 0x80_0000, 1, 0xa0, 0x51_0edb, 0, 0xd28c_77c2);
    var e1 := Number(0xd28c_77c2, Hex(xd, x2, x8, xc, x7, x7, xc, x2));
    Next(1, 0xeb41_643e, e1, e0, b, Number(0xd04c_d322, Hex(xd, x0, x4, xc, xd, x3, x2, x2)), 0, 0xf4d5_0d87,
         14, 0x4000, 0x4_0000, 2, 0x2c18, 0x3_44e7, 1, 0xa3c6_63da);
    var e2 := Number(0xa3c6_63da, Hex(xa, x3, xc, x6, x6, x3, xd, xa));
    Next(1, 0xe422_531a, e2, e1, e0, Number(0xe2c6_77c2, Hex(xe, x2, xc, x6, x7, x7, xc, x2)), 0, 0x455a_14ed,
         20, 0x10_0000, 0x1000, 2, 0xc42d, 0xfc9, 1, 0xa057_2807);
  }

  lemma Empty7(x: seq<word>)
    requires Short(x, 0x80, 0)
    ensures FourSteps(State(0x306e_c122, 0xa057_2807, 0xa3c6_63da, 0xd28c_77c2), 7, x)
      == State(0x1370_7036, 0xa220_5f1f, 0x1c31_c384, 0xae78_13db)
  {
    hide Pow2, Step, Fun, Bits4.Right, T, K, S;
    Powers();
    Plan7();
    var d := Number(0xd28c_77c2, Hex(xd, x2, x8, xc, x7, x7, xc, x2));
    var c := Number(0xa3c6_63da, Hex(xa, x3, xc, x6, x6, x3, xd, xa));
    var b := Number(0xa057_2807, Hex(xa, x0, x5, x7, x2, x8, x0, x7));
    Next(1, 0x306e_c122, b, c, d, Number(0xa146_201a, Hex(xa, x1, x4, x6, x2, x0, x1, xa)), 0, 0xa9e3_e905,
         5, 0x20, 0x800_0000, 1, 0xf, 0x398_ca41, 1, 0x1370_7036);
    var e0 := Number(0x1370_7036, Hex(x1, x3, x7, x0, x7, x0, x3, x6));
    Next(1, 0xd28c_77c2, e0, b, c, Number(0x0351_6817, Hex(x0, x3, x5, x1, x6, x8, x1, x7)), 0, 0xfcef_a3f8,
         9, 0x200, 0x80_0000, 1, 0x1a5, 0x4d_83d1, 0, 0xae78_13db);
    var e1 := Number(0xae78_13db, Hex(xa, xe, x7, x8, x1, x3, xd, xb));
    Next(1, 0xa3c6_63da, e1, e0, b, Number(0xb370_5033, Hex(xb, x3, x7, x0, x5, x0, x3, x3)), 0, 0x676f_02d9,
         14, 0x4000, 0x4_0000, 1, 0x2fa9, 0x1_b6e6, 1, 0x1c31_c384);
    var e2 := Number(0x1c31_c384, Hex(x1, xc, x3, x1, xc, x3, x8, x4));
    Next(1, 0xa057_2807, e2, e1, e0, Number(0xbc38_43cd, Hex(xb, xc, x3, x8, x4, x3, xc, xd)), 0, 0x8d2a_4c8a,
         20, 0x10_0000, 0x1000, 1, 0xe_9b9b, 0x85e, 0, 0xa220_5f1f);
  }

  lemma Empty8(x: seq<word>)
    requires Short(x, 0x80, 0)
    ensures FourSteps(State(0x1370_7036, 0xa220_5f1f, 0x1c31_c384, 0xae78_13db), 8, x)
      == State(0xdf63_eaa1, 0x004b_6669, 0x12f3_e755, 0xc368_9f5b)
  {
    hide Pow2, Step, Fun, Bits4.Right, T, K, S;
    Powers();
    Plan8();
    var d := Number(0xae78_13db, Hex(xa, xe, x7, x8, x1, x3, xd, xb));
    var c := Number(0x1c31_c384, Hex(x1, xc, x3, x1, xc, x3, x8, x4));
    var b := Number(0xa220_5f1f, Hex(xa, x2, x2, x0, x5, xf, x1, xf));
    Next(2, 0x1370_7036, b, c, d, Number(0x1069_8f40, Hex(x1, x0, x6, x9, x8, xf, x4, x0)), 0, 0xfffa_3942,
         4, 0x10, 0x1000_0000, 1, 0x2, 0x3d4_38b8, 0, 0xdf63_eaa1);
    var e0 := Number(0xdf63_eaa1, Hex(xd, xf, x6, x3, xe, xa, xa, x1));
    Next(2, 0xae78_13db, e0, b, c, Number(0x6172_763a, Hex(x6, x1, x7, x2, x7, x6, x3, xa)), 0, 0x8771_f681,
         11, 0x800, 0x20_0000, 1, 0x4ba, 0x1c_8096, 1, 0xc368_9f5b);
    var e1 := Number(0xc368_9f5b, Hex(xc, x3, x6, x8, x9, xf, x5, xb));
    Next(2, 0x1c31_c384, e1, e0, b, Number(0xbe2b_2ae5, Hex(xb, xe, x2, xb, x2, xa, xe, x5)), 0, 0x6d9d_6122,
         16, 0x1_0000, 0x1_0000, 1, 0x47fa, 0x4f8b, 1, 0x12f3_e755);
    var e2 := Number(0x12f3_e755, Hex(x1, x2, xf, x3, xe, x7, x5, x5));
    Next(2, 0xa220_5f1f, e2, e1, e0, Number(0x0ef8_92af, Hex(x0, xe, xf, x8, x9, x2, xa, xf)), 0, 0xfde5_380c,
         23, 0x80_0000, 0x200, 1, 0x57_7f14, 0x1da, 1, 0x004b_6669);
  }

  lemma Empty9(x: seq<word>)
    requires Short(x, 0x80, 0)
    ensures FourSteps(State(0xdf63_eaa1, 0x004b_6669, 0x12f3_e755, 0xc368_9f5b), 9, x)
      == State(0x5f7a_9b2e, 0xc5dc_8c15, 0x91ca_4cb7, 0xabc3_4e16)
  {
    hide Pow2, Step, Fun, Bits4.Right, T, K, S;
    Powers();
    Plan9();
    var d := Number(0xc368_9f5b, Hex(xc, x3, x6, x8, x9, xf, x5, xb));
    var c := Number(0x12f3_e755, Hex(x1, x2, xf, x3, xe, x7, x5, x5));
    var b := Number(0x004b_6669, Hex(x0, x0, x4, xb, x6, x6, x6, x9));
    Next(2, 0xdf63_eaa1, b, c, d, Number(0xd1d0_1e67, Hex(xd, x1, xd, x0, x1, xe, x6, x7)), 0, 0xa4be_ea44,
         4, 0x10, 0x1000_0000, 2, 0x5, 0x5f2_f34c, 0, 0x5f7a_9b2e);
    var e0 := Number(0x5f7a_9b2e, Hex(x5, xf, x7, xa, x9, xb, x2, xe));
    Next(2, 0xc368_9f5b, e0, b, c, Number(0x4dc2_1a12, Hex(x4, xd, xc, x2, x1, xa, x1, x2)), 0, 0x4bde_cfa9,
         11, 0x800, 0x20_0000, 1, 0x2e8, 0x9_8916, 0, 0xabc3_4e16);
    var e1 := Number(0xabc3_4e16, Hex(xa, xb, xc, x3, x4, xe, x1, x6));
    Next(2, 0x12f3_e755, e1, e0, b, Number(0xf4f2_b351, Hex(xf, x4, xf, x2, xb, x3, x5, x1)), 0, 0xf6bb_4b60,
         16, 0x1_0000, 0x1_0000, 1, 0xfea1, 0xe606, 1, 0x91ca_4cb7);
    var e2 := Number(0x91ca_4cb7, Hex(x9, x1, xc, xa, x4, xc, xb, x7));
    Next(2, 0x004b_6669, e2, e1, e0, Number(0x6573_998f, Hex(x6, x5, x7, x3, x9, x9, x8, xf)), 0, 0xbebf_bc70,
         23, 0x80_0000, 0x200, 1, 0x12_3f5e, 0x68, 0, 0xc5dc_8c15);
  }

  lemma Empty10(x: seq<word>)
    requires Short(x, 0x80, 0)
    ensures FourSteps(State(0x5f7a_9b2e, 0xc5dc_8c15, 0x91ca_4cb7, 0xabc3_4e16), 10, x)
      == State(0x4497_169d, 0x0fe3_2453, 0xfd95_f243, 0x76fd_93d4)
  {
    hide Pow2, Step, Fun, Bits4.Right, T, K, S;
    Powers();
    Plan10();
    var d := Number(0xabc3_4e16, Hex(xa, xb, xc, x3, x4, xe, x1, x6));
    var c := Number(0x91ca_4cb7, Hex(x9, x1, xc, xa, x4, xc, xb, x7));
    var b := Number(0xc5dc_8c15, Hex(xc, x5, xd, xc, x8, xc, x1, x5));
    Next(2, 0x5f7a_9b2e, b, c, d, Number(0xffd5_8eb4, Hex(xf, xf, xd, x5, x8, xe, xb, x4)), 0, 0x289b_7ec6,
         4, 0x10, 0x1000_0000, 1, 0x8, 0x7eb_a8a8, 1, 0x4497_169d);
    var e0 := Number(0x4497_169d, Hex(x4, x4, x9, x7, x1, x6, x9, xd));
    Next(2, 0xabc3_4e16, e0, b, c, Number(0x1081_d63f, Hex(x1, x0, x8, x1, xd, x6, x3, xf)), 0x80, 0xeaa1_27fa,
         11, 0x800, 0x20_0000, 1, 0x537, 0x6_4ccf, 0, 0x76fd_93d4);
    var e1 := Number(0x76fd_93d4, Hex(x7, x6, xf, xd, x9, x3, xd, x4));
    Next(2, 0x91ca_4cb7, e1, e0, b, Number(0xf7b6_095c, Hex(xf, x7, xb, x6, x0, x9, x5, xc)), 0, 0xd4ef_3085,
         16, 0x1_0000, 0x1_0000, 2, 0x5e6f, 0x8698, 0, 0xfd95_f243);
    var e2 := Number(0xfd95_f243, Hex(xf, xd, x9, x5, xf, x2, x4, x3));
    Next(2, 0xc5dc_8c15, e2, e1, e0, Number(0xcfff_770a, Hex(xc, xf, xf, xf, x7, x7, x0, xa)), 0, 0x0488_1d05,
         23, 0x80_0000, 0x200, 1, 0x4d_3210, 0x24, 1, 0x0fe3_2453);
  }

  lemma Empty11(x: seq<word>)
    requires Short(x, 0x80, 0)
    ensures FourSteps(State(0x4497_169d, 0x0fe3_2453, 0xfd95_f243, 0x76fd_93d4), 11, x)
      == State(0x3f55_edfd, 0xca7d_2dbd, 0x68d8_4ea2, 0x22a3_1f54)
  {
    hide Pow2, Step, Fun, Bits4.Right, T, K, S;
    Powers();
    Plan11();
    var d := Number(0x76fd_93d4, Hex(x7, x6, xf, xd, x9, x3, xd, x4));
    var c := Number(0xfd95_f243, Hex(xf, xd, x9, x5, xf, x2, x4, x3));
    var b := Number(0x0fe3_2453, Hex(x0, xf, xe, x3, x2, x4, x5, x3));
    Next(2, 0x4497_169d, b, c, d, Number(0x848b_45c4, Hex(x8, x4, x8, xb, x4, x5, xc, x4)), 0, 0xd9d4_d039,
         4, 0x10, 0x1000_0000, 1, 0xa, 0x2f7_2c9a, 0, 0x3f55_edfd);
    var e0 := Number(0x3f55_edfd, Hex(x3, xf, x5, x5, xe, xd, xf, xd));
    Next(2, 0x76fd_93d4, e0, b, c, Number(0xcd23_3bed, Hex(xc, xd, x2, x3, x3, xb, xe, xd)), 0, 0xe6db_99e5,
         11, 0x800, 0x20_0000, 2, 0x157, 0x1c_69a6, 1, 0x22a3_1f54);
    var e1 := Number(0x22a3_1f54, Hex(x2, x2, xa, x3, x1, xf, x5, x4));
    Next(2, 0xfd95_f243, e1, e0, b, Number(0x1215_d6fa, Hex(x1, x2, x1, x5, xd, x6, xf, xa)), 0, 0x1fa2_7cf8,
         16, 0x1_0000, 0x1_0000, 1, 0x2f4e, 0x4635, 0, 0x68d8_4ea2);
    var e2 := Number(0x68d8_4ea2, Hex(x6, x8, xd, x8, x4, xe, xa, x2));
    Next(2, 0x0fe3_2453, e2, e1, e0, Number(0x752e_bc0b, Hex(x7, x5, x2, xe, xb, xc, x0, xb)), 0, 0xc4ac_5665,
         23, 0x80_0000, 0x200, 1, 0x24_df1b, 0xc3, 0, 0xca7d_2dbd);
  }

  lemma Empty12(x: seq<word>)
    requires Short(x, 0x80, 0)
    ensures FourSteps(State(0x3f55_edfd, 0xca7d_2dbd, 0x68d8_4ea2, 0x22a3_1f54), 12, x)
      == State(0x93aa_2577, 0x561e_0689, 0xcd85_b8cb, 0x1688_dc85)
  {
    hide Pow2, Step, Fun, Bits4.Right, T, K, S;
    Powers();
    Plan12();
    var d := Number(0x22a3_1f54, Hex(x2, x2, xa, x3, x1, xf, x5, x4));
    var c := Number(0x68d8_4ea2, Hex(x6, x8, xd, x8, x4, xe, xa, x2));
    var b := Number(0xca7d_2dbd, Hex(xc, xa, x7, xd, x2, xd, xb, xd));
    Next(3, 0x3f55_edfd, b, c, d, Number(0xb7a5_a31d, Hex(xb, x7, xa, x5, xa, x3, x1, xd)), 0x80, 0xf429_2244,
         6, 0x40, 0x400_0000, 1, 0x3a, 0x324_b3de, 1, 0x93aa_2577);
    var e0 := Number(0x93aa_2577, Hex(x9, x3, xa, xa, x2, x5, x7, x7));
    Next(3, 0x22a3_1f54, e0, b, c, Number(0x5dd2_98c2, Hex(x5, xd, xd, x2, x9, x8, xc, x2)), 0, 0x432a_ff97,
         10, 0x400, 0x40_0000, 0, 0x30e, 0x20_b7ad, 1, 0x1688_dc85);
    var e1 := Number(0x1688_dc85, Hex(x1, x6, x8, x8, xd, xc, x8, x5));
    Next(3, 0x68d8_4ea2, e1, e0, b, Number(0xa420_fbb0, Hex(xa, x4, x2, x0, xf, xb, xb, x0)), 0, 0xab94_23a7,
         15, 0x8000, 0x2_0000, 1, 0x5c46, 0x1_6df9, 0, 0xcd85_b8cb);
    var e2 := Number(0xcd85_b8cb, Hex(xc, xd, x8, x5, xb, x8, xc, xb));
    Next(3, 0xca7d_2dbd, e2, e1, e0, Number(0xfb5d_264e, Hex(xf, xb, x5, xd, x2, x6, x4, xe)), 0, 0xfc93_a039,
         21, 0x20_0000, 0x800, 2, 0x18_4dbe, 0x444, 1, 0x561e_0689);
  }

  lemma Empty13(x: seq<word>)
    requires Short(x, 0x80, 0)
    ensures FourSteps(State(0x93aa_2577, 0x561e_0689, 0xcd85_b8cb, 0x1688_dc85), 13, x)
      == State(0x5625_a114, 0x1e77_fa61, 0x392a_d0d0, 0x3450_f42b)
  {
    hide Pow2, Step, Fun, Bits4.Right, T, K, S;
    Powers();
    Plan13();
    var d := Number(0x1688_dc85, Hex(x1, x6, x8, x8, xd, xc, x8, x5));
    var c := Number(0xcd85_b8cb, Hex(xc, xd, x8, x5, xb, x8, xc, xb));
    var b := Number(0x561e_0689, Hex(x5, x6, x1, xe, x0, x6, x8, x9));
    Next(3, 0x93aa_2577, b, c, d, Number(0x32fa_9f30, Hex(x3, x2, xf, xa, x9, xf, x3, x0)), 0, 0x655b_59c3,
         6, 0x40, 0x400_0000, 1, 0xb, 0x1e6a, 0, 0x5625_a114);
    var e0 := Number(0x5625_a114, Hex(x5, x6, x2, x5, xa, x1, x1, x4));
    Next(3, 0x1688_dc85, e0, b, c, Number(0x2061_e1bd, Hex(x2, x0, x6, x1, xe, x1, xb, xd)), 0, 0x8f0c_cc92,
         10, 0x400, 0x40_0000, 0, 0x317, 0x37_8ad4, 1, 0x3450_f42b);
    var e1 := Number(0x3450_f42b, Hex(x3, x4, x5, x0, xf, x4, x2, xb));
    Next(3, 0xcd85_b8cb, e1, e0, b, Number(0xebd4_5c6b, Hex(xe, xb, xd, x4, x5, xc, x6, xb)), 0, 0xffef_f47d,
         15, 0x8000, 0x2_0000, 2, 0x5ca5, 0x9b3, 0, 0x392a_d0d0);
    var e2 := Number(0x392a_d0d0, Hex(x3, x9, x2, xa, xd, x0, xd, x0));
    Next(3, 0x561e_0689, e2, e1, e0, Number(0x8daa_2ad0, Hex(x8, xd, xa, xa, x2, xa, xd, x0)), 0, 0x8584_5dd1,
         21, 0x20_0000, 0x800, 1, 0xd_2991, 0x72a, 1, 0x1e77_fa61);
  }

  lemma Empty14(x: seq<word>)
    requires Short(x, 0x80, 0)
    ensures FourSteps(State(0x5625_a114, 0x1e77_fa61, 0x392a_d0d0, 0x3450_f42b), 14, x)
      == State(0x474a_9c8c, 0x3013_0182, 0x3659_4b14, 0xdfce_00bc)
  {
    hide Pow2, Step, Fun, Bits4.Right, T, K, S;
    Powers();
    Plan14();
    var d := Number(0x3450_f42b, Hex(x3, x4, x5, x0, xf, x4, x2, xb));
    var c := Number(0x392a_d0d0, Hex(x3, x9, x2, xa, xd, x0, xd, x0));
    var b := Number(0x1e77_fa61, Hex(x1, xe, x7, x7, xf, xa, x6, x1));
    Next(3, 0x5625_a114, b, c, d, Number(0xe6d5_2b25, Hex(xe, x6, xd, x5, x2, xb, x2, x5)), 0, 0x6fa8_7e4f,
         6, 0x40, 0x400_0000, 1, 0x2b, 0xa3_4a88, 0, 0x474a_9c8c);
    var e0 := Number(0x474a_9c8c, Hex(x4, x7, x4, xa, x9, xc, x8, xc));
    Next(3, 0x3450_f42b, e0, b, c, Number(0xd9a8_45ce, Hex(xd, x9, xa, x8, x4, x5, xc, xe)), 0, 0xfe2c_e6e0,
         10, 0x400, 0x40_0000, 2, 0x30, 0x26_20d9, 0, 0xdfce_00bc);
    var e1 := Number(0xdfce_00bc, Hex(xd, xf, xc, xe, x0, x0, xb, xc));
    Next(3, 0x392a_d0d0, e1, e0, b, Number(0xb884_9932, Hex(xb, x8, x8, x4, x9, x9, x3, x2)), 0, 0xa301_4314,
         15, 0x8000, 0x2_0000, 1, 0x4a58, 0xad16, 1, 0x3659_4b14);
    var e2 := Number(0x3659_4b14, Hex(x3, x6, x5, x9, x4, xb, x1, x4));
    Next(3, 0x1e77_fa61, e2, e1, e0, Number(0x6133_6bcb, Hex(x6, x1, x3, x3, x6, xb, xc, xb)), 0, 0x4e08_11a1,
         21, 0x20_0000, 0x800, 0, 0x19_b66e, 0x7cd, 1, 0x3013_0182);
  }

  lemma Empty15(x: seq<word>)
    requires Short(x, 0x80, 0)
    ensures FourSteps(State(0x474a_9c8c, 0x3013_0182, 0x3659_4b14, 0xdfce_00bc), 15, x)
      == State(0x7246_fad3, 0x14e4_5506, 0xff4e_a3eb, 0x6e10_a476)
  {
    hide Pow2, Step, Fun, Bits4.Right, T, K, S;
    Powers();
    Plan15();
    var d := Number(0xdfce_00bc, Hex(xd, xf, xc, xe, x0, x0, xb, xc));
    var c := Number(0x3659_4b14, Hex(x3, x6, x5, x9, x4, xb, x1, x4));
    var b := Number(0x3013_0182, Hex(x3, x0, x1, x3, x0, x1, x8, x2));
    Next(3, 0x474a_9c8c, b, c, d, Number(0x066a_b4d7, Hex(x0, x6, x6, xa, xb, x4, xd, x7)), 0, 0xf753_7e82,
         6, 0x40, 0x400_0000, 1, 0x11, 0x108_cfe5, 0, 0x7246_fad3);
    var e0 := Number(0x7246_fad3, Hex(x7, x2, x4, x6, xf, xa, xd, x3));
    Next(3, 0xdfce_00bc, e0, b, c, Number(0xcbf5_ff79, Hex(xc, xb, xf, x5, xf, xf, x7, x9)), 0, 0xbd3a_f235,
         10, 0x400, 0x40_0000, 2, 0x1a3, 0x3e_f26a, 1, 0x6e10_a476);
    var e1 := Number(0x6e10_a476, Hex(x6, xe, x1, x0, xa, x4, x7, x6));
    Next(3, 0x3659_4b14, e1, e0, b, Number(0x9dba_04ac, Hex(x9, xd, xb, xa, x0, x4, xa, xc)), 0, 0x2ad7_d2bb,
         15, 0x8000, 0x2_0000, 0, 0x7f75, 0x1_227b, 0, 0xff4e_a3eb);
    var e2 := Number(0xff4e_a3eb, Hex(xf, xf, x4, xe, xa, x3, xe, xb));
    Next(3, 0x3013_0182, e2, e1, e0, Number(0x91ef_0399, Hex(x9, x1, xe, xf, x0, x3, x9, x9)), 0, 0xeb86_d391,
         21, 0x20_0000, 0x800, 1, 0x15_b11b, 0xac, 1, 0x14e4_5506);
  }

  // ---- the steps on "abc" ----

  lemma Abc0(x: seq<word>)
    requires Short(x, 0x8063_6261, 24)
    ensures FourSteps(State(0x6745_2301, 0xefcd_ab89, 0x98ba_dcfe, 0x1032_5476), 0, x)
      == State(0xd6d1_17b4, 0x7ad9_56f2, 0x2f6f_bd72, 0x344a_8432)
  {
    hide Pow2, Step, Fun, Bits4.Right, T, K, S;
    Powers();
    Plan0();
    var d := Number(0x1032_5476, Hex(x1, x0, x3, x2, x5, x4, x7, x6));
    var c := Number(0x98ba_dcfe, Hex(x9, x8, xb, xa, xd, xc, xf, xe));
    var b := Number(0xefcd_ab89, Hex(xe, xf, xc, xd, xa, xb, x8, x9));
    Next(0, 0x6745_2301, b, c, d, Number(0x98ba_dcfe, Hex(x9, x8, xb, xa, xd, xc, xf, xe)), 0x8063_6261, 0xd76a_a478,
         7, 0x80, 0x200_0000, 2, 0x2b, 0x1ce_06d8, 1, 0xd6d1_17b4);
    var e0 := Number(0xd6d1_17b4, Hex(xd, x6, xd, x1, x1, x7, xb, x4));
    Next(0, 0x1032_5476, e0, b, c, Number(0xceeb_cbca, Hex(xc, xe, xe, xb, xc, xb, xc, xa)), 0, 0xe8c7_b756,
         12, 0x1000, 0x10_0000, 1, 0xc7e, 0x5_d796, 1, 0x344a_8432);
    var e1 := Number(0x344a_8432, Hex(x3, x4, x4, xa, x8, x4, x3, x2));
    Next(0, 0x98ba_dcfe, e1, e0, b, Number(0xdfc5_2fb9, Hex(xd, xf, xc, x5, x2, xf, xb, x9)), 0, 0x2420_70db,
         17, 0x2_0000, 0x8000, 1, 0x1_3940, 0x7d92, 1, 0x2f6f_bd72);
    var e2 := Number(0x2f6f_bd72, Hex(x2, xf, x6, xf, xb, xd, x7, x2));
    Next(0, 0xefcd_ab89, e2, e1, e0, Number(0xf4da_86b6, Hex(xf, x4, xd, xa, x8, x6, xb, x6)), 0, 0xc1bd_ceee,
         22, 0x40_0000, 0x400, 2, 0x29_9980, 0x12d, 0, 0x7ad9_56f2);
  }

  lemma Abc1(x: seq<word>)
    requires Short(x, 0x8063_6261, 24)
    ensures FourSteps(State(0xd6d1_17b4, 0x7ad9_56f2, 0x2f6f_bd72, 0x344a_8432), 1, x)
      == State(0xc737_41ef, 0x928d_99f6, 0x207d_c67b, 0x8bac_3051)
  {
    hide Pow2, Step, Fun, Bits4.Right, T, K, S;
    Powers();
    Plan1();
    var d := Number(0x344a_8432, Hex(x3, x4, x4, xa, x8, x4, x3, x2));
    var c := Number(0x2f6f_bd72, Hex(x2, xf, x6, xf, xb, xd, x7, x2));
    var b := Number(0x7ad9_56f2, Hex(x7, xa, xd, x9, x5, x6, xf, x2));
    Next(0, 0xd6d1_17b4, b, c, d, Number(0x2e4b_9472, Hex(x2, xe, x4, xb, x9, x4, x7, x2)), 0, 0xf57c_0faf,
         7, 0x80, 0x200_0000, 1, 0x7d, 0x98_bbd5, 0, 0xc737_41ef);
    var e0 := Number(0xc737_41ef, Hex(xc, x7, x3, x7, x4, x1, xe, xf));
    Next(0, 0x344a_8432, e0, b, c, Number(0x6a59_fcf2, Hex(x6, xa, x5, x9, xf, xc, xf, x2)), 0, 0x4787_c62a,
         12, 0x1000, 0x10_0000, 0, 0xe62, 0xc_474e, 1, 0x8bac_3051);
    var e1 := Number(0x8bac_3051, Hex(x8, xb, xa, xc, x3, x0, x5, x1));
    Next(0, 0x2f6f_bd72, e1, e0, b, Number(0xf375_46e3, Hex(xf, x3, x7, x5, x4, x6, xe, x3)), 0, 0xa830_4613,
         17, 0x2_0000, 0x8000, 1, 0x1_962a, 0x4a68, 1, 0x207d_c67b);
    var e2 := Number(0x207d_c67b, Hex(x2, x0, x7, xd, xc, x6, x7, xb));
    Next(0, 0x7ad9_56f2, e2, e1, e0, Number(0xc72e_01d5, Hex(xc, x7, x2, xe, x0, x1, xd, x5)), 0, 0xfd46_9501,
         22, 0x40_0000, 0x400, 2, 0xf_d37b, 0x1c8, 0, 0x928d_99f6);
  }

  lemma Abc2(x: seq<word>)
    requires Short(x, 0x8063_6261, 24)
    ensures FourSteps(State(0xc737_41ef, 0x928d_99f6, 0x207d_c67b, 0x8bac_3051), 2, x)
      == State(0x854b_3712, 0x5ed4_9596, 0x3020_401c, 0x74e2_f284)
  {
    hide Pow2, Step, Fun, Bits4.Right, T, K, S;
    Powers();
    Plan2();
    var d := Number(0x8bac_3051, Hex(x8, xb, xa, xc, x3, x0, x5, x1));
    var c := Number(0x207d_c67b, Hex(x2, x0, x7, xd, xc, x6, x7, xb));
    var b := Number(0x928d_99f6, Hex(x9, x2, x8, xd, x9, x9, xf, x6));
    Next(0, 0xc737_41ef, b, c, d, Number(0x092d_a073, Hex(x0, x9, x2, xd, xa, x0, x7, x3)), 0, 0x6980_98d8,
         7, 0x80, 0x200_0000, 1, 0x1c, 0x1e5_7b3a, 1, 0x854b_3712);
    var e0 := Number(0x854b_3712, Hex(x8, x5, x4, xb, x3, x7, x1, x2));
    Next(0, 0x8bac_3051, e0, b, c, Number(0xa03d_d17b, Hex(xa, x0, x3, xd, xd, x1, x7, xb)), 0, 0x8b44_f7af,
         12, 0x1000, 0x10_0000, 1, 0xb72, 0xe_f97b, 1, 0x74e2_f284);
    var e1 := Number(0x74e2_f284, Hex(x7, x4, xe, x2, xf, x2, x8, x4));
    Next(0, 0x207d_c67b, e1, e0, b, Number(0x864f_3b72, Hex(x8, x6, x4, xf, x3, xb, x7, x2)), 0, 0xffff_5bb1,
         17, 0x2_0000, 0x8000, 1, 0x1_4d98, 0x5d9e, 1, 0x3020_401c);
    var e2 := Number(0x3020_401c, Hex(x3, x0, x2, x0, x4, x0, x1, xc));
    Next(0, 0x928d_99f6, e2, e1, e0, Number(0xb56b_7706, Hex(xb, x5, x6, xb, x7, x7, x0, x6)), 0, 0x895c_d7be,
         22, 0x40_0000, 0x400, 1, 0x34_557a, 0xba, 0, 0x5ed4_9596);
  }

  lemma Abc3(x: seq<word>)
    requires Short(x, 0x8063_6261, 24)
    ensures FourSteps(State(0x854b_3712, 0x5ed4_9596, 0x3020_401c, 0x74e2_f284), 3, x)
      == State(0xdda9_b9a6, 0x72af_f2e0, 0xe396_856b, 0xa105_1895)
  {
    hide Pow2, Step, Fun, Bits4.Right, T, K, S;
    Powers();
    Plan3();
    var d := Number(0x74e2_f284, Hex(x7, x4, xe, x2, xf, x2, x8, x4));
    var c := Number(0x3020_401c, Hex(x3, x0, x2, x0, x4, x0, x1, xc));
    var b := Number(0x5ed4_9596, Hex(x5, xe, xd, x4, x9, x5, x9, x6));
    Next(0, 0x854b_3712, b, c, d, Number(0x3022_6214, Hex(x3, x0, x2, x2, x6, x2, x1, x4)), 0, 0x6b90_1122,
         7, 0x80, 0x200_0000, 1, 0x10, 0xfd_aa48, 0, 0xdda9_b9a6);
    var e0 := Number(0xdda9_b9a6, Hex(xd, xd, xa, x9, xb, x9, xa, x6));
    Next(0, 0x74e2_f284, e0, b, c, Number(0x7c80_d19e, Hex(x7, xc, x8, x0, xd, x1, x9, xe)), 0, 0xfd98_7193,
         12, 0x1000, 0x10_0000, 1, 0xeef, 0xc_35b5, 1, 0xa105_1895);
    var e1 := Number(0xa105_1895, Hex(xa, x1, x0, x5, x1, x8, x9, x5));
    Next(0, 0x3020_401c, e1, e0, b, Number(0xdfd1_9d86, Hex(xd, xf, xd, x1, x9, xd, x8, x6)), 0x0000_0018, 0xa679_438e,
         17, 0x2_0000, 0x8000, 1, 0x1_6cd6, 0x2148, 0, 0xe396_856b);
    var e2 := Number(0xe396_856b, Hex(xe, x3, x9, x6, x8, x5, x6, xb));
    Next(0, 0x5ed4_9596, e2, e1, e0, Number(0xbd2d_3885, Hex(xb, xd, x2, xd, x3, x8, x8, x5)), 0, 0x49b4_0821,
         22, 0x40_0000, 0x400, 1, 0x19_6d75, 0x23c, 1, 0x72af_f2e0);
  }

  lemma Abc4(x: seq<word>)
    requires Short(x, 0x8063_6261, 24)
    ensures FourSteps(State(0xdda9_b9a6, 0x72af_f2e0, 0xe396_856b, 0xa105_1895), 4, x)
      == State(0x3e9e_9126, 0xb5b2_04e4, 0xe25e_1652, 0x4a1d_804e)
  {
    hide Pow2, Step, Fun, Bits4.Right, T, K, S;
    Powers();
    Plan4();
    var d := Number(0xa105_1895, Hex(xa, x1, x0, x5, x1, x8, x9, x5));
    var c := Number(0xe396_856b, Hex(xe, x3, x9, x6, x8, x5, x6, xb));
    var b := Number(0x72af_f2e0, Hex(x7, x2, xa, xf, xf, x2, xe, x0));
    Next(1, 0xdda9_b9a6, b, c, d, Number(0x6297_95ea, Hex(x6, x2, x9, x7, x9, x5, xe, xa)), 0, 0xf61e_2562,
         5, 0x20, 0x800_0000, 2, 0x6, 0x65f_74f2, 1, 0x3e9e_9126);
    var e0 := Number(0x3e9e_9126, Hex(x3, xe, x9, xe, x9, x1, x2, x6));
    Next(1, 0xa105_1895, e0, b, c, Number(0x32bf_f3a2, Hex(x3, x2, xb, xf, xf, x3, xa, x2)), 0, 0xc040_b340,
         9, 0x200, 0x80_0000, 1, 0x128, 0x5_bf77, 0, 0x4a1d_804e);
    var e1 := Number(0x4a1d_804e, Hex(x4, xa, x1, xd, x8, x0, x4, xe));
    Next(1, 0xe396_856b, e1, e0, b, Number(0x4e1d_8146, Hex(x4, xe, x1, xd, x8, x1, x4, x6)), 0, 0x265e_5a51,
         14, 0x4000, 0x4_0000, 1, 0x1604, 0x2_6102, 0, 0xe25e_1652);
    var e2 := Number(0xe25e_1652, Hex(xe, x2, x5, xe, x1, x6, x5, x2));
    Next(1, 0x72af_f2e0, e2, e1, e0, Number(0x621f_104a, Hex(x6, x2, x1, xf, x1, x0, x4, xa)), 0x8063_6261, 0xe9b6_c7aa,
         20, 0x10_0000, 0x1000, 2, 0x3_ee92, 0xd35, 1, 0xb5b2_04e4);
  }

  lemma Abc5(x: seq<word>)
    requires Short(x, 0x8063_6261, 24)
    ensures FourSteps(State(0x3e9e_9126, 0xb5b2_04e4, 0xe25e_1652, 0x4a1d_804e), 5, x)
      == State(0x59a8_ffda, 0x4709_2c07, 0xabfc_7920, 0x6d00_2f1e)
  {
    hide Pow2, Step, Fun, Bits4.Right, T, K, S;
    Powers();
    Plan5();
    var d := Number(0x4a1d_804e, Hex(x4, xa, x1, xd, x8, x0, x4, xe));
    var c := Number(0xe25e_1652, Hex(xe, x2, x5, xe, x1, x6, x5, x2));
    var b := Number(0xb5b2_04e4, Hex(xb, x5, xb, x2, x0, x4, xe, x4));
    Next(1, 0x3e9e_9126, b, c, d, Number(0xa052_1654, Hex(xa, x0, x5, x2, x1, x6, x5, x4)), 0, 0xd62f_105d,
         5, 0x20, 0x800_0000, 1, 0x16, 0x51f_b7d7, 1, 0x59a8_ffda);
    var e0 := Number(0x59a8_ffda, Hex(x5, x9, xa, x8, xf, xf, xd, xa));
    Next(1, 0x4a1d_804e, e0, b, c, Number(0x55a8_16f6, Hex(x5, x5, xa, x8, x1, x6, xf, x6)), 0, 0x0244_1453,
         9, 0x200, 0x80_0000, 0, 0x144, 0x9_ab97, 0, 0x6d00_2f1e);
    var e1 := Number(0x6d00_2f1e, Hex(x6, xd, x0, x0, x2, xf, x1, xe));
    Next(1, 0xe25e_1652, e1, e0, b, Number(0x6d08_ff1e, Hex(x6, xd, x0, x8, xf, xf, x1, xe)), 0, 0xd8a1_e681,
         14, 0x4000, 0x4_0000, 2, 0xa02, 0xfbf1, 0, 0xabfc_7920);
    var e2 := Number(0xabfc_7920, Hex(xa, xb, xf, xc, x7, x9, x2, x0));
    Next(1, 0xb5b2_04e4, e2, e1, e0, Number(0x2da8_7904, Hex(x2, xd, xa, x8, x7, x9, x0, x4)), 0, 0xe7d3_fbc8,
         20, 0x10_0000, 0x1000, 1, 0xc_b2e7, 0x9b0, 1, 0x4709_2c07);
  }

  lemma Abc6(x: seq<word>)
    requires Short(x, 0x8063_6261, 24)
    ensures FourSteps(State(0x59a8_ffda, 0x4709_2c07, 0xabfc_7920, 0x6d00_2f1e), 6, x)
      == State(0xb7f2_68cf, 0x786a_cb8f, 0xfe16_23b1, 0x0938_8eff)
  {
    hide Pow2, Step, Fun, Bits4.Right, T, K, S;
    Powers();
    Plan6();
    var d := Number(0x6d00_2f1e, Hex(x6, xd, x0, x0, x2, xf, x1, xe));
    var c := Number(0xabfc_7920, Hex(xa, xb, xf, xc, x7, x9, x2, x0));
    var b := Number(0x4709_2c07, Hex(x4, x7, x0, x9, x2, xc, x0, x7));
    Next(1, 0x59a8_ffda, b, c, d, Number(0xc7fc_7c26, Hex(xc, x7, xf, xc, x7, xc, x2, x6)), 0, 0x21e1_cde6,
         5, 0x20, 0x800_0000, 1, 0x8, 0x387_49e6, 0, 0xb7f2_68cf);
    var e0 := Number(0xb7f2_68cf, Hex(xb, x7, xf, x2, x6, x8, xc, xf));
    Next(1, 0x6d00_2f1e, e0, b, c, Number(0xe7f1_6c07, Hex(xe, x7, xf, x1, x6, xc, x0, x7)), 0x0000_0018, 0xc337_07d6,
         9, 0x200, 0x80_0000, 2, 0x30, 0x28_a313, 1, 0x0938_8eff);
    var e1 := Number(0x0938_8eff, Hex(x0, x9, x3, x8, x8, xe, xf, xf));
    Next(1, 0xabfc_7920, e1, e0, b, Number(0xb1fa_4ccf, Hex(xb, x1, xf, xa, x4, xc, xc, xf)), 0, 0xf4d5_0d87,
         14, 0x4000, 0x4_0000, 2, 0x14b2, 0x3_d376, 0, 0xfe16_23b1);
    var e2 := Number(0xfe16_23b1, Hex(xf, xe, x1, x6, x2, x3, xb, x1));
    Next(1, 0x4709_2c07, e2, e1, e0, Number(0xbe1a_a6b1, Hex(xb, xe, x1, xa, xa, x6, xb, x1)), 0, 0x455a_14ed,
         20, 0x10_0000, 0x1000, 1, 0x4_a7de, 0x7a5, 1, 0x786a_cb8f);
  }

  lemma Abc7(x: seq<word>)
    requires Short(x, 0x8063_6261, 24)
    ensures FourSteps(State(0xb7f2_68cf, 0x786a_cb8f, 0xfe16_23b1, 0x0938_8eff), 7, x)
      == State(0x790a_77fb, 0x7263_42d3, 0xa628_84aa, 0x9f47_e4f8)
  {
    hide Pow2, Step, Fun, Bits4.Right, T, K, S;
    Powers();
    Plan7();
    var d := Number(0x0938_8eff, Hex(x0, x9, x3, x8, x8, xe, xf, xf));
    var c := Number(0xfe16_23b1, Hex(xf, xe, x1, x6, x2, x3, xb, x1));
    var b := Number(0x786a_cb8f, Hex(x7, x8, x6, xa, xc, xb, x8, xf));
    Next(1, 0xb7f2_68cf, b, c, d, Number(0xfe2e_ab8f, Hex(xf, xe, x2, xe, xa, xb, x8, xf)), 0, 0xa9e3_e905,
         5, 0x20, 0x800_0000, 2, 0xc, 0x4_fd63, 0, 0x790a_77fb);
    var e0 := Number(0x790a_77fb, Hex(x7, x9, x0, xa, x7, x7, xf, xb));
    Next(1, 0x0938_8eff, e0, b, c, Number(0x786a_ebbf, Hex(x7, x8, x6, xa, xe, xb, xb, xf)), 0, 0xfcef_a3f8,
         9, 0x200, 0x80_0000, 1, 0xfd, 0x13_1eb6, 0, 0x9f47_e4f8);
    var e1 := Number(0x9f47_e4f8, Hex(x9, xf, x4, x7, xe, x4, xf, x8));
    Next(1, 0xfe16_23b1, e1, e0, b, Number(0x1942_f4f8, Hex(x1, x9, x4, x2, xf, x4, xf, x8)), 0, 0x676f_02d9,
         14, 0x4000, 0x4_0000, 1, 0x1fb2, 0x1b82, 0, 0xa628_84aa);
    var e2 := Number(0xa628_84aa, Hex(xa, x6, x2, x8, x8, x4, xa, xa));
    Next(1, 0x786a_cb8f, e2, e1, e0, Number(0xa64d_84aa, Hex(xa, x6, x4, xd, x8, x4, xa, xa)), 0, 0x8d2a_4c8a,
         20, 0x10_0000, 0x1000, 1, 0xa_be29, 0xcc3, 1, 0x7263_42d3);
  }

  lemma Abc8(x: seq<word>)
    requires Short(x, 0x8063_6261, 24)
    ensures FourSteps(State(0x790a_77fb, 0x7263_42d3, 0xa628_84aa, 0x9f47_e4f8), 8, x)
      == State(0xb370_7ebf, 0x3b08_75c7, 0x8d21_2ff5, 0x6012_7b2e)
  {
    hide Pow2, Step, Fun, Bits4.Right, T, K, S;
    Powers();
    Plan8();
    var d := Number(0x9f47_e4f8, Hex(x9, xf, x4, x7, xe, x4, xf, x8));
    var c := Number(0xa628_84aa, Hex(xa, x6, x2, x8, x8, x4, xa, xa));
    var b := Number(0x7263_42d3, Hex(x7, x2, x6, x3, x4, x2, xd, x3));
    Next(2, 0x790a_77fb, b, c, d, Number(0x4b0c_2281, Hex(x4, xb, x0, xc, x2, x2, x8, x1)), 0, 0xfffa_3942,
         4, 0x10, 0x1000_0000, 1, 0xc, 0x410_d3be, 0, 0xb370_7ebf);
    var e0 := Number(0xb370_7ebf, Hex(xb, x3, x7, x0, x7, xe, xb, xf));
    Next(2, 0x9f47_e4f8, e0, b, c, Number(0x673b_b8c6, Hex(x6, x7, x3, xb, xb, x8, xc, x6)), 0, 0x8771_f681,
         11, 0x800, 0x20_0000, 1, 0x46f, 0x15_943f, 1, 0x6012_7b2e);
    var e1 := Number(0x6012_7b2e, Hex(x6, x0, x1, x2, x7, xb, x2, xe));
    Next(2, 0xa628_84aa, e1, e0, b, Number(0xa101_4742, Hex(xa, x1, x0, x1, x4, x7, x4, x2)), 0, 0x6d9d_6122,
         16, 0x1_0000, 0x1_0000, 1, 0xb4c7, 0x2d0e, 0, 0x8d21_2ff5);
    var e2 := Number(0x8d21_2ff5, Hex(x8, xd, x2, x1, x2, xf, xf, x5));
    Next(2, 0x7263_42d3, e2, e1, e0, Number(0x5e43_2a64, Hex(x5, xe, x4, x3, x2, xa, x6, x4)), 0x0000_0018, 0xfde5_380c,
         23, 0x80_0000, 0x200, 1, 0x67_45d2, 0x15b, 1, 0x3b08_75c7);
  }

  lemma Abc9(x: seq<word>)
    requires Short(x, 0x8063_6261, 24)
    ensures FourSteps(State(0xb370_7ebf, 0x3b08_75c7, 0x8d21_2ff5, 0x6012_7b2e), 9, x)
      == State(0x21b1_17b9, 0x5a2f_5ea5, 0x3575_227e, 0x6e74_29d5)
  {
    hide Pow2, Step, Fun, Bits4.Right, T, K, S;
    Powers();
    Plan9();
    var d := Number(0x6012_7b2e, Hex(x6, x0, x1, x2, x7, xb, x2, xe));
    var c := Number(0x8d21_2ff5, Hex(x8, xd, x2, x1, x2, xf, xf, x5));
    var b := Number(0x3b08_75c7, Hex(x3, xb, x0, x8, x7, x5, xc, x7));
    Next(2, 0xb370_7ebf, b, c, d, Number(0xd63b_211c, Hex(xd, x6, x3, xb, x2, x1, x1, xc)), 0, 0xa4be_ea44,
         4, 0x10, 0x1000_0000, 2, 0x2, 0xe6a_8a1f, 1, 0x21b1_17b9);
    var e0 := Number(0x21b1_17b9, Hex(x2, x1, xb, x1, x1, x7, xb, x9));
    Next(2, 0x6012_7b2e, e0, b, c, Number(0x9798_4d8b, Hex(x9, x7, x9, x8, x4, xd, x8, xb)), 0, 0x4bde_cfa9,
         11, 0x800, 0x20_0000, 1, 0x21c, 0x9_9862, 0, 0x6e74_29d5);
    var e1 := Number(0x6e74_29d5, Hex(x6, xe, x7, x4, x2, x9, xd, x5));
    Next(2, 0x8d21_2ff5, e1, e0, b, Number(0x74cd_4bab, Hex(x7, x4, xc, xd, x4, xb, xa, xb)), 0, 0xf6bb_4b60,
         16, 0x1_0000, 0x1_0000, 1, 0xf8a9, 0xc700, 1, 0x3575_227e);
    var e2 := Number(0x3575_227e, Hex(x3, x5, x7, x5, x2, x2, x7, xe));
    Next(2, 0x3b08_75c7, e2, e1, e0, Number(0x7ab0_1c12, Hex(x7, xa, xb, x0, x1, xc, x1, x2)), 0, 0xbebf_bc70,
         23, 0x80_0000, 0x200, 1, 0x3a_3c27, 0x49, 0, 0x5a2f_5ea5);
  }

  lemma Abc10(x: seq<word>)
    requires Short(x, 0x8063_6261, 24)
    ensures FourSteps(State(0x21b1_17b9, 0x5a2f_5ea5, 0x3575_227e, 0x6e74_29d5), 10, x)
      == State(0x11de_1779, 0x4c61_24f4, 0x31c4_65ca, 0xfadc_aa38)
  {
    hide Pow2, Step, Fun, Bits4.Right, T, K, S;
    Powers();
    Plan10();
    var d := Number(0x6e74_29d5, Hex(x6, xe, x7, x4, x2, x9, xd, x5));
    var c := Number(0x3575_227e, Hex(x3, x5, x7, x5, x2, x2, x7, xe));
    var b := Number(0x5a2f_5ea5, Hex(x5, xa, x2, xf, x5, xe, xa, x5));
    Next(2, 0x21b1_17b9, b, c, d, Number(0x012e_550e, Hex(x0, x1, x2, xe, x5, x5, x0, xe)), 0, 0x289b_7ec6,
         4, 0x10, 0x1000_0000, 0, 0x4, 0xb7a_eb8d, 1, 0x11de_1779);
    var e0 := Number(0x11de_1779, Hex(x1, x1, xd, xe, x1, x7, x7, x9));
    Next(2, 0x6e74_29d5, e0, b, c, Number(0x7e84_6ba2, Hex(x7, xe, x8, x4, x6, xb, xa, x2)), 0x8063_6261, 0xeaa1_27fa,
         11, 0x800, 0x20_0000, 2, 0x2bf, 0x1d_1fd2, 0, 0xfadc_aa38);
    var e1 := Number(0xfadc_aa38, Hex(xf, xa, xd, xc, xa, xa, x3, x8));
    Next(2, 0x3575_227e, e1, e0, b, Number(0xb12d_e3e4, Hex(xb, x1, x2, xd, xe, x3, xe, x4)), 0, 0xd4ef_3085,
         16, 0x1_0000, 0x1_0000, 1, 0xbb92, 0x36e7, 1, 0x31c4_65ca);
    var e2 := Number(0x31c4_65ca, Hex(x3, x1, xc, x4, x6, x5, xc, xa));
    Next(2, 0x5a2f_5ea5, e2, e1, e0, Number(0xdac6_d88b, Hex(xd, xa, xc, x6, xd, x8, x8, xb)), 0, 0x0488_1d05,
         23, 0x80_0000, 0x200, 1, 0x1c_bf2a, 0x35, 0, 0x4c61_24f4);
  }

  lemma Abc11(x: seq<word>)
    requires Short(x, 0x8063_6261, 24)
    ensures FourSteps(State(0x11de_1779, 0x4c61_24f4, 0x31c4_65ca, 0xfadc_aa38), 11, x)
      == State(0x7f2e_507b, 0x7beb_9700, 0x8fae_6399, 0x99d9_679d)
  {
    hide Pow2, Step, Fun, Bits4.Right, T, K, S;
    Powers();
    Plan11();
    var d := Number(0xfadc_aa38, Hex(xf, xa, xd, xc, xa, xa, x3, x8));
    var c := Number(0x31c4_65ca, Hex(x3, x1, xc, x4, x6, x5, xc, xa));
    var b := Number(0x4c61_24f4, Hex(x4, xc, x6, x1, x2, x4, xf, x4));
    Next(2, 0x11de_1779, b, c, d, Number(0x8779_eb06, Hex(x8, x7, x7, x9, xe, xb, x0, x6)), 0, 0xd9d4_d039,
         4, 0x10, 0x1000_0000, 1, 0x7, 0x32c_d2b8, 0, 0x7f2e_507b);
    var e0 := Number(0x7f2e_507b, Hex(x7, xf, x2, xe, x5, x0, x7, xb));
    Next(2, 0xfadc_aa38, e0, b, c, Number(0x028b_1145, Hex(x0, x2, x8, xb, x1, x1, x4, x5)), 0, 0xe6db_99e5,
         11, 0x800, 0x20_0000, 1, 0x722, 0x3_5562, 0, 0x99d9_679d);
    var e1 := Number(0x99d9_679d, Hex(x9, x9, xd, x9, x6, x7, x9, xd));
    Next(2, 0x31c4_65ca, e1, e0, b, Number(0xaa96_1312, Hex(xa, xa, x9, x6, x1, x3, x1, x2)), 0, 0x1fa2_7cf8,
         16, 0x1_0000, 0x1_0000, 0, 0xfbfc, 0xf5d4, 1, 0x8fae_6399);
    var e2 := Number(0x8fae_6399, Hex(x8, xf, xa, xe, x6, x3, x9, x9));
    Next(2, 0x4c61_24f4, e2, e1, e0, Number(0x6959_547f, Hex(x6, x9, x5, x9, x5, x4, x7, xf)), 0, 0xc4ac_5665,
         23, 0x80_0000, 0x200, 1, 0x3d_3367, 0x1d8, 1, 0x7beb_9700);
  }

  lemma Abc12(x: seq<word>)
    requires Short(x, 0x8063_6261, 24)
    ensures FourSteps(State(0x7f2e_507b, 0x7beb_9700, 0x8fae_6399, 0x99d9_679d), 12, x)
      == State(0x7b20_1df8, 0x8bf0_25c4, 0xb298_cefd, 0xf4e8_e96e)
  {
    hide Pow2, Step, Fun, Bits4.Right, T, K, S;
    Powers();
    Plan12();
    var d := Number(0x99d9_679d, Hex(x9, x9, xd, x9, x6, x7, x9, xd));
    var c := Number(0x8fae_6399, Hex(x8, xf, xa, xe, x6, x3, x9, x9));
    var b := Number(0x7beb_9700, Hex(x7, xb, xe, xb, x9, x7, x0, x0));
    Next(3, 0x7f2e_507b, b, c, d, Number(0xf041_fcfb, Hex(xf, x0, x4, x1, xf, xc, xf, xb)), 0x8063_6261, 0xf429_2244,
         6, 0x40, 0x400_0000, 2, 0x38, 0x3fc_d21b, 1, 0x7b20_1df8);
    var e0 := Number(0x7b20_1df8, Hex(x7, xb, x2, x0, x1, xd, xf, x8));
    Next(3, 0x99d9_679d, e0, b, c, Number(0x009a_0afe, Hex(x0, x0, x9, xa, x0, xa, xf, xe)), 0, 0x432a_ff97,
         10, 0x400, 0x40_0000, 0, 0x376, 0x1e_7232, 0, 0xf4e8_e96e);
    var e1 := Number(0xf4e8_e96e, Hex(xf, x4, xe, x8, xe, x9, x6, xe));
    Next(3, 0x8fae_6399, e1, e0, b, Number(0x8fdc_f407, Hex(x8, xf, xd, xc, xf, x4, x0, x7)), 0x0000_0018, 0xab94_23a7,
         15, 0x8000, 0x2_0000, 1, 0x658f, 0x1_7b5f, 1, 0xb298_cefd);
    var e2 := Number(0xb298_cefd, Hex(xb, x2, x9, x8, xc, xe, xf, xd));
    Next(3, 0x7beb_9700, e2, e1, e0, Number(0x4237_0791, Hex(x4, x2, x3, x7, x0, x7, x9, x1)), 0, 0xfc93_a039,
         21, 0x20_0000, 0x800, 1, 0x17_56c7, 0x6ca, 1, 0x8bf0_25c4);
  }

  lemma Abc13(x: seq<word>)
    requires Short(x, 0x8063_6261, 24)
    ensures FourSteps(State(0x7b20_1df8, 0x8bf0_25c4, 0xb298_cefd, 0xf4e8_e96e), 13, x)
      == State(0x06cc_5e8a, 0x3bfa_2c27, 0x7d63_2dd0, 0x5b0d_97aa)
  {
    hide Pow2, Step, Fun, Bits4.Right, T, K, S;
    Powers();
    Plan13();
    var d := Number(0xf4e8_e96e, Hex(xf, x4, xe, x8, xe, x9, x6, xe));
    var c := Number(0xb298_cefd, Hex(xb, x2, x9, x8, xc, xe, xf, xd));
    var b := Number(0x8bf0_25c4, Hex(x8, xb, xf, x0, x2, x5, xc, x4));
    Next(3, 0x7b20_1df8, b, c, d, Number(0x396f_f928, Hex(x3, x9, x6, xf, xf, x9, x2, x8)), 0, 0x655b_59c3,
         6, 0x40, 0x400_0000, 1, 0x6, 0x1eb_70e3, 1, 0x06cc_5e8a);
    var e0 := Number(0x06cc_5e8a, Hex(x0, x6, xc, xc, x5, xe, x8, xa));
    Next(3, 0xf4e8_e96e, e0, b, c, Number(0xc41f_5a4e, Hex(xc, x4, x1, xf, x5, xa, x4, xe)), 0, 0x8f0c_cc92,
         10, 0x400, 0x40_0000, 2, 0x120, 0x15_104e, 0, 0x5b0d_97aa);
    var e1 := Number(0x5b0d_97aa, Hex(x5, xb, x0, xd, x9, x7, xa, xa));
    Next(3, 0xb298_cefd, e1, e0, b, Number(0x79c3_8131, Hex(x7, x9, xc, x3, x8, x1, x3, x1)), 0, 0xffef_f47d,
         15, 0x8000, 0x2_0000, 2, 0x1626, 0x44ab, 0, 0x7d63_2dd0);
    var e2 := Number(0x7d63_2dd0, Hex(x7, xd, x6, x3, x2, xd, xd, x0));
    Next(3, 0x8bf0_25c4, e2, e1, e0, Number(0xa67e_3a5f, Hex(xa, x6, x7, xe, x3, xa, x5, xf)), 0, 0x8584_5dd1,
         21, 0x20_0000, 0x800, 1, 0x16_fe57, 0x5f4, 1, 0x3bfa_2c27);
  }

  lemma Abc14(x: seq<word>)
    requires Short(x, 0x8063_6261, 24)
    ensures FourSteps(State(0x06cc_5e8a, 0x3bfa_2c27, 0x7d63_2dd0, 0x5b0d_97aa), 14, x)
      == State(0x7f81_cc35, 0x7327_d604, 0x4f9d_be3f, 0x0944_54ab)
  {
    hide Pow2, Step, Fun, Bits4.Right, T, K, S;
    Powers();
    Plan14();
    var d := Number(0x5b0d_97aa, Hex(x5, xb, x0, xd, x9, x7, xa, xa));
    var c := Number(0x7d63_2dd0, Hex(x7, xd, x6, x3, x2, xd, xd, x0));
    var b := Number(0x3bfa_2c27, Hex(x3, xb, xf, xa, x2, xc, x2, x7));
    Next(3, 0x06cc_5e8a, b, c, d, Number(0xc299_41a7, Hex(xc, x2, x9, x9, x4, x1, xa, x7)), 0, 0x6fa8_7e4f,
         6, 0x40, 0x400_0000, 1, 0xe, 0x10e_1e80, 0, 0x7f81_cc35);
    var e0 := Number(0x7f81_cc35, Hex(x7, xf, x8, x1, xc, xc, x3, x5));
    Next(3, 0x5b0d_97aa, e0, b, c, Number(0xc467_f218, Hex(xc, x4, x6, x7, xf, x2, x1, x8)), 0, 0xfe2c_e6e0,
         10, 0x400, 0x40_0000, 2, 0x76, 0x22_70a2, 1, 0x0944_54ab);
    var e1 := Number(0x0944_54ab, Hex(x0, x9, x4, x4, x5, x4, xa, xb));
    Next(3, 0x7d63_2dd0, e1, e0, b, Number(0xb2c4_1bce, Hex(xb, x2, xc, x4, x1, xb, xc, xe)), 0, 0xa301_4314,
         15, 0x8000, 0x2_0000, 1, 0x6994, 0x8cb2, 0, 0x4f9d_be3f);
    var e2 := Number(0x4f9d_be3f, Hex(x4, xf, x9, xd, xb, xe, x3, xf));
    Next(3, 0x3bfa_2c27, e2, e1, e0, Number(0xc6bb_eb54, Hex(xc, x6, xb, xb, xe, xb, x5, x4)), 0, 0x4e08_11a1,
         21, 0x20_0000, 0x800, 1, 0xa_17c5, 0x11c, 0, 0x7327_d604);
  }

  lemma Abc15(x: seq<word>)
    requires Short(x, 0x8063_6261, 24)
    ensures FourSteps(State(0x7f81_cc35, 0x7327_d604, 0x4f9d_be3f, 0x0944_54ab), 15, x)
      == State(0x310a_de8f, 0xc082_26b3, 0xe484_b9d8, 0x624d_8cb2)
  {
    hide Pow2, Step, Fun, Bits4.Right, T, K, S;
    Powers();
    Plan15();
    var d := Number(0x0944_54ab, Hex(x0, x9, x4, x4, x5, x4, xa, xb));
    var c := Number(0x4f9d_be3f, Hex(x4, xf, x9, xd, xb, xe, x3, xf));
    var b := Number(0x7327_d604, Hex(x7, x3, x2, x7, xd, x6, x0, x4));
    Next(3, 0x7f81_cc35, b, c, d, Number(0xb822_416b, Hex(xb, x8, x2, x2, x4, x1, x6, xb)), 0, 0xf753_7e82,
         6, 0x40, 0x400_0000, 2, 0xb, 0x2f7_8c22, 1, 0x310a_de8f);
    var e0 := Number(0x310a_de8f, Hex(x3, x1, x0, xa, xd, xe, x8, xf));
    Next(3, 0x0944_54ab, e0, b, c, Number(0xc24d_09cb, Hex(xc, x2, x4, xd, x0, x9, xc, xb)), 0, 0xbd3a_f235,
         10, 0x400, 0x40_0000, 1, 0x223, 0xc_50ab, 0, 0x624d_8cb2);
    var e1 := Number(0x624d_8cb2, Hex(x6, x2, x4, xd, x8, xc, xb, x2));
    Next(3, 0x4f9d_be3f, e1, e0, b, Number(0xdfd7_7374, Hex(xd, xf, xd, x7, x7, x3, x7, x4)), 0, 0x2ad7_d2bb,
         15, 0x8000, 0x2_0000, 1, 0x2d26, 0x1_046e, 0, 0xe484_b9d8);
    var e2 := Number(0xe484_b9d8, Hex(xe, x4, x8, x4, xb, x9, xd, x8));
    Next(3, 0x7327_d604, e2, e1, e0, Number(0x8cb8_354a, Hex(x8, xc, xb, x8, x3, x5, x4, xa)), 0, 0xeb86_d391,
         21, 0x20_0000, 0x800, 1, 0x1d_6cdb, 0x6df, 1, 0xc082_26b3);
  }

  // ---- rounds and digests ----

  lemma EmptyRound0(x: seq<word>)
    requires Short(x, 0x80, 0)
    ensures Round(State(0x6745_2301, 0xefcd_ab89, 0x98ba_dcfe, 0x1032_5476), 0, x)
      == State(0xf56c_7cf1, 0xd681_9c6a, 0x5aa5_3f75, 0x3749_43a7)
  {
    hide FourSteps, Short;
    Empty0(x);
    Empty1(x);
    Empty2(x);
    Empty3(x);
  }

  lemma EmptyRound1(x: seq<word>)
    requires Short(x, 0x80, 0)
    ensures Round(State(0xf56c_7cf1, 0xd681_9c6a, 0x5aa5_3f75, 0x3749_43a7), 1, x)
      == State(0x1370_7036, 0xa220_5f1f, 0x1c31_c384, 0xae78_13db)
  {
    hide FourSteps, Short;
    Empty4(x);
    Empty5(x);
    Empty6(x);
    Empty7(x);
  }

  lemma EmptyRound2(x: seq<word>)
    requires Short(x, 0x80, 0)
    ensures Round(State(0x1370_7036, 0xa220_5f1f, 0x1c31_c384, 0xae78_13db), 2, x)
      == State(0x3f55_edfd, 0xca7d_2dbd, 0x68d8_4ea2, 0x22a3_1f54)
  {
    hide FourSteps, Short;
    Empty8(x);
    Empty9(x);
    Empty10(x);
    Empty11(x);
  }

  lemma EmptyRound3(x: seq<word>)
    requires Short(x, 0x80, 0)
    ensures Round(State(0x3f55_edfd, 0xca7d_2dbd, 0x68d8_4ea2, 0x22a3_1f54), 3, x)
      == State(0x7246_fad3, 0x14e4_5506, 0xff4e_a3eb, 0x6e10_a476)
  {
    hide FourSteps, Short;
    Empty12(x);
    Empty13(x);
    Empty14(x);
    Empty15(x);
  }

  /** The digest of no bytes. */
  lemma DigestEmpty()
    ensures Digest([]) == [
      0xd4, 0x1d, 0x8c, 0xd9, 0x8f, 0x00, 0xb2, 0x04,
      0xe9, 0x80, 0x09, 0x98, 0xec, 0xf8, 0x42, 0x7e]
  {
    hide Round, Short, Words, Padded, Compress, Output, WordBytes;
    var block := Padded([]);
    Whole([]);
    var x := Words(block);
    assert Short(x, 0x80, 0) by { EmptyWords(); }
    EmptyRound0(x);
    EmptyRound1(x);
    EmptyRound2(x);
    EmptyRound3(x);
    CompressIs(START, block, State(0x7246_fad3, 0x14e4_5506, 0xff4e_a3eb, 0x6e10_a476));
    var sums := State(0xd98c_1dd4, 0x04b2_008f, 0x9809_80e9, 0x7e42_f8ec);
    OutputIs(sums);
    WordBytesIs(0xd98c_1dd4, 0xd4, 0x1d, 0x8c, 0xd9);
    WordBytesIs(0x04b2_008f, 0x8f, 0x00, 0xb2, 0x04);
    WordBytesIs(0x9809_80e9, 0xe9, 0x80, 0x09, 0x98);
    WordBytesIs(0x7e42_f8ec, 0xec, 0xf8, 0x42, 0x7e);
  }

  lemma EmptyWords()
    ensures Short(Words(Padded([])), 0x80, 0)
  {
    var m: seq<byte> := [];
    hide Words;
    ShortWords(m);
  }

  lemma AbcRound0(x: seq<word>)
    requires Short(x, 0x8063_6261, 24)
    ensures Round(State(0x6745_2301, 0xefcd_ab89, 0x98ba_dcfe, 0x1032_5476), 0, x)
      == State(0xdda9_b9a6, 0x72af_f2e0, 0xe396_856b, 0xa105_1895)
  {
    hide FourSteps, Short;
    Abc0(x);
    Abc1(x);
    Abc2(x);
    Abc3(x);
  }

  lemma AbcRound1(x: seq<word>)
    requires Short(x, 0x8063_6261, 24)
    ensures Round(State(0xdda9_b9a6, 0x72af_f2e0, 0xe396_856b, 0xa105_1895), 1, x)
      == State(0x790a_77fb, 0x7263_42d3, 0xa628_84aa, 0x9f47_e4f8)
  {
    hide FourSteps, Short;
    Abc4(x);
    Abc5(x);
    Abc6(x);
    Abc7(x);
  }

  lemma AbcRound2(x: seq<word>)
    requires Short(x, 0x8063_6261, 24)
    ensures Round(State(0x790a_77fb, 0x7263_42d3, 0xa628_84aa, 0x9f47_e4f8), 2, x)
      == State(0x7f2e_507b, 0x7beb_9700, 0x8fae_6399, 0x99d9_679d)
  {
    hide FourSteps, Short;
    Abc8(x);
    Abc9(x);
    Abc10(x);
    Abc11(x);
  }

  lemma AbcRound3(x: seq<word>)
    requires Short(x, 0x8063_6261, 24)
    ensures Round(State(0x7f2e_507b, 0x7beb_9700, 0x8fae_6399, 0x99d9_679d), 3, x)
      == State(0x310a_de8f, 0xc082_26b3, 0xe484_b9d8, 0x624d_8cb2)
  {
    hide FourSteps, Short;
    Abc12(x);
    Abc13(x);
    Abc14(x);
    Abc15(x);
  }

  /** The digest of "abc". */
  lemma DigestAbc()
    ensures Digest([0x61, 0x62, 0x63]) == [
      0x90, 0x01, 0x50, 0x98, 0x3c, 0xd2, 0x4f, 0xb0,
      0xd6, 0x96, 0x3f, 0x7d, 0x28, 0xe1, 0x7f, 0x72]
  {
    hide Round, Short, Words, Padded, Compress, Output, WordBytes;
    var block := Padded([0x61, 0x62, 0x63]);
    Whole([0x61, 0x62, 0x63]);
    var x := Words(block);
    assert Short(x, 0x8063_6261, 24) by { AbcWords(); }
    AbcRound0(x);
    AbcRound1(x);
    AbcRound2(x);
    AbcRound3(x);
    CompressIs(START, block, State(0x310a_de8f, 0xc082_26b3, 0xe484_b9d8, 0x624d_8cb2));
    var sums := State(0x9850_0190, 0xb04f_d23c, 0x7d3f_96d6, 0x727f_e128);
    OutputIs(sums);
    WordBytesIs(0x9850_0190, 0x90, 0x01, 0x50, 0x98);
    WordBytesIs(0xb04f_d23c, 0x3c, 0xd2, 0x4f, 0xb0);
    WordBytesIs(0x7d3f_96d6, 0xd6, 0x96, 0x3f, 0x7d);
    WordBytesIs(0x727f_e128, 0x28, 0xe1, 0x7f, 0x72);
  }

  lemma AbcWords()
    ensures Short(Words(Padded([0x61, 0x62, 0x63])), 0x8063_6261, 24)
  {
    var m: seq<byte> := [0x61, 0x62, 0x63];
    hide Words;
    ShortWords(m);
  }
}
