/** The unrolled compression function. */
module Md5Rounds {
  import opened Md5Spec

  const T_MASK: bv32 := 0xffffffff
  const T1: word := (T_MASK ^ 0x28955b87) as word
  const T2: word := (T_MASK ^ 0x173848a9) as word
  const T3: word := 0x242070db
  const T4: word := (T_MASK ^ 0x3e423111) as word
  const T5: word := (T_MASK ^ 0x0a83f050) as word
  const T6: word := 0x4787c62a
  const T7: word := (T_MASK ^ 0x57cfb9ec) as word
  const T8: word := (T_MASK ^ 0x02b96afe) as word
  const T9: word := 0x698098d8
  const T10: word := (T_MASK ^ 0x74bb0850) as word
  const T11: word := (T_MASK ^ 0x0000a44e) as word
  const T12: word := (T_MASK ^ 0x76a32841) as word
  const T13: word := 0x6b901122
  const T14: word := (T_MASK ^ 0x02678e6c) as word
  const T15: word := (T_MASK ^ 0x5986bc71) as word
  const T16: word := 0x49b40821
  const T17: word := (T_MASK ^ 0x09e1da9d) as word
  const T18: word := (T_MASK ^ 0x3fbf4cbf) as word
  const T19: word := 0x265e5a51
  const T20: word := (T_MASK ^ 0x16493855) as word
  const T21: word := (T_MASK ^ 0x29d0efa2) as word
  const T22: word := 0x02441453
  const T23: word := (T_MASK ^ 0x275e197e) as word
  const T24: word := (T_MASK ^ 0x182c0437) as word
  const T25: word := 0x21e1cde6
  const T26: word := (T_MASK ^ 0x3cc8f829) as word
  const T27: word := (T_MASK ^ 0x0b2af278) as word
  const T28: word := 0x455a14ed
  const T29: word := (T_MASK ^ 0x561c16fa) as word
  const T30: word := (T_MASK ^ 0x03105c07) as word
  const T31: word := 0x676f02d9
  const T32: word := (T_MASK ^ 0x72d5b375) as word
  const T33: word := (T_MASK ^ 0x0005c6bd) as word
  const T34: word := (T_MASK ^ 0x788e097e) as word
  const T35: word := 0x6d9d6122
  const T36: word := (T_MASK ^ 0x021ac7f3) as word
  const T37: word := (T_MASK ^ 0x5b4115bb) as word
  const T38: word := 0x4bdecfa9
  const T39: word := (T_MASK ^ 0x0944b49f) as word
  const T40: word := (T_MASK ^ 0x4140438f) as word
  const T41: word := 0x289b7ec6
  const T42: word := (T_MASK ^ 0x155ed805) as word
  const T43: word := (T_MASK ^ 0x2b10cf7a) as word
  const T44: word := 0x04881d05
  const T45: word := (T_MASK ^ 0x262b2fc6) as word
  const T46: word := (T_MASK ^ 0x1924661a) as word
  const T47: word := 0x1fa27cf8
  const T48: word := (T_MASK ^ 0x3b53a99a) as word
  const T49: word := (T_MASK ^ 0x0bd6ddbb) as word
  const T50: word := 0x432aff97
  const T51: word := (T_MASK ^ 0x546bdc58) as word
  const T52: word := (T_MASK ^ 0x036c5fc6) as word
  const T53: word := 0x655b59c3
  const T54: word := (T_MASK ^ 0x70f3336d) as word
  const T55: word := (T_MASK ^ 0x00100b82) as word
  const T56: word := (T_MASK ^ 0x7a7ba22e) as word
  const T57: word := 0x6fa87e4f
  const T58: word := (T_MASK ^ 0x01d3191f) as word
  const T59: word := (T_MASK ^ 0x5cfebceb) as word
  const T60: word := 0x4e0811a1
  const T61: word := (T_MASK ^ 0x08ac817d) as word
  const T62: word := (T_MASK ^ 0x42c50dca) as word
  const T63: word := 0x2ad7d2bb
  const T64: word := (T_MASK ^ 0x14792c6e) as word

  /** The SET macro: step i on registers in the roles a, b, c, d, where f is the auxiliary
      function already applied to b, c and d. The step consumes the head of a run of steps. */
  method Set(ghost i: nat, f: word, a: word, b: word, ghost c: word, ghost d: word, x: seq<word>, k: nat, s: nat, ti: word)
    returns (out: word)
    requires |x| == 16 && i < 64
    requires f == Auxiliary(i, b, c, d) && k == K(i) && s == S(i) && ti == T(i)
    ensures Operations(i, 16 - i % 16, Regs(a, b, c, d), x) == Operations(i + 1, 15 - i % 16, Regs(d, out, b, c), x)
  {
    hide RotateLeft, T, K, S, Auxiliary;
    var t := Add(Add(Add(a, f), x[k]), ti);
    out := Add(RotateLeft(t, s), b);
  }

  lemma {:induction false} NoSteps(i: nat, r: Regs, x: seq<word>)
    requires i <= 64 && |x| == 16
    ensures Operations(i, 0, r, x) == r
  {
  }

  lemma {:induction false} Order1()
    ensures K(0) == 0 && K(1) == 1 && K(2) == 2 && K(3) == 3 && K(4) == 4 && K(5) == 5 && K(6) == 6 && K(7) == 7
    ensures K(8) == 8 && K(9) == 9 && K(10) == 10 && K(11) == 11 && K(12) == 12 && K(13) == 13 && K(14) == 14 && K(15) == 15
    ensures S(0) == 7 && S(1) == 12 && S(2) == 17 && S(3) == 22 && S(4) == 7 && S(5) == 12 && S(6) == 17 && S(7) == 22
    ensures S(8) == 7 && S(9) == 12 && S(10) == 17 && S(11) == 22 && S(12) == 7 && S(13) == 12 && S(14) == 17 && S(15) == 22
  {
  }

  lemma {:induction false} Table1()
    ensures T(0) == T1 && T(1) == T2 && T(2) == T3 && T(3) == T4 && T(4) == T5 && T(5) == T6 && T(6) == T7 && T(7) == T8
    ensures T(8) == T9 && T(9) == T10 && T(10) == T11 && T(11) == T12 && T(12) == T13 && T(13) == T14 && T(14) == T15 && T(15) == T16
  {
  }

  method Round1(r: Regs, x: seq<word>) returns (out: Regs)
    requires |x| == 16
    ensures out == Operations(0, 16, r, x)
  {
    Order1();
    Table1();
    hide Operations, Operation, RotateLeft, F, G, H, I, T, K, S;
    hide T1, T2, T3, T4, T5, T6, T7, T8, T9, T10, T11, T12, T13, T14, T15, T16;
    var Regs(a, b, c, d) := r;
    a := Set(0, F(b, c, d), a, b, c, d, x, 0, 7, T1);
    d := Set(1, F(a, b, c), d, a, b, c, x, 1, 12, T2);
    c := Set(2, F(d, a, b), c, d, a, b, x, 2, 17, T3);
    b := Set(3, F(c, d, a), b, c, d, a, x, 3, 22, T4);
    a := Set(4, F(b, c, d), a, b, c, d, x, 4, 7, T5);
    d := Set(5, F(a, b, c), d, a, b, c, x, 5, 12, T6);
    c := Set(6, F(d, a, b), c, d, a, b, x, 6, 17, T7);
    b := Set(7, F(c, d, a), b, c, d, a, x, 7, 22, T8);
    a := Set(8, F(b, c, d), a, b, c, d, x, 8, 7, T9);
    d := Set(9, F(a, b, c), d, a, b, c, x, 9, 12, T10);
    c := Set(10, F(d, a, b), c, d, a, b, x, 10, 17, T11);
    b := Set(11, F(c, d, a), b, c, d, a, x, 11, 22, T12);
    a := Set(12, F(b, c, d), a, b, c, d, x, 12, 7, T13);
    d := Set(13, F(a, b, c), d, a, b, c, x, 13, 12, T14);
    c := Set(14, F(d, a, b), c, d, a, b, x, 14, 17, T15);
    b := Set(15, F(c, d, a), b, c, d, a, x, 15, 22, T16);
    NoSteps(16, Regs(a, b, c, d), x);
    out := Regs(a, b, c, d);
  }

  lemma {:induction false} Order2()
    ensures K(16) == 1 && K(17) == 6 && K(18) == 11 && K(19) == 0 && K(20) == 5 && K(21) == 10 && K(22) == 15 && K(23) == 4
    ensures K(24) == 9 && K(25) == 14 && K(26) == 3 && K(27) == 8 && K(28) == 13 && K(29) == 2 && K(30) == 7 && K(31) == 12
    ensures S(16) == 5 && S(17) == 9 && S(18) == 14 && S(19) == 20 && S(20) == 5 && S(21) == 9 && S(22) == 14 && S(23) == 20
    ensures S(24) == 5 && S(25) == 9 && S(26) == 14 && S(27) == 20 && S(28) == 5 && S(29) == 9 && S(30) == 14 && S(31) == 20
  {
  }

  lemma {:induction false} Table2()
    ensures T(16) == T17 && T(17) == T18 && T(18) == T19 && T(19) == T20 && T(20) == T21 && T(21) == T22 && T(22) == T23 && T(23) == T24
    ensures T(24) == T25 && T(25) == T26 && T(26) == T27 && T(27) == T28 && T(28) == T29 && T(29) == T30 && T(30) == T31 && T(31) == T32
  {
  }

  method Round2(r: Regs, x: seq<word>) returns (out: Regs)
    requires |x| == 16
    ensures out == Operations(16, 16, r, x)
  {
    Order2();
    Table2();
    hide Operations, Operation, RotateLeft, F, G, H, I, T, K, S;
    hide T17, T18, T19, T20, T21, T22, T23, T24, T25, T26, T27, T28, T29, T30, T31, T32;
    var Regs(a, b, c, d) := r;
    a := Set(16, G(b, c, d), a, b, c, d, x, 1, 5, T17);
    d := Set(17, G(a, b, c), d, a, b, c, x, 6, 9, T18);
    c := Set(18, G(d, a, b), c, d, a, b, x, 11, 14, T19);
    b := Set(19, G(c, d, a), b, c, d, a, x, 0, 20, T20);
    a := Set(20, G(b, c, d), a, b, c, d, x, 5, 5, T21);
    d := Set(21, G(a, b, c), d, a, b, c, x, 10, 9, T22);
    c := Set(22, G(d, a, b), c, d, a, b, x, 15, 14, T23);
    b := Set(23, G(c, d, a), b, c, d, a, x, 4, 20, T24);
    a := Set(24, G(b, c, d), a, b, c, d, x, 9, 5, T25);
    d := Set(25, G(a, b, c), d, a, b, c, x, 14, 9, T26);
    c := Set(26, G(d, a, b), c, d, a, b, x, 3, 14, T27);
    b := Set(27, G(c, d, a), b, c, d, a, x, 8, 20, T28);
    a := Set(28, G(b, c, d), a, b, c, d, x, 13, 5, T29);
    d := Set(29, G(a, b, c), d, a, b, c, x, 2, 9, T30);
    c := Set(30, G(d, a, b), c, d, a, b, x, 7, 14, T31);
    b := Set(31, G(c, d, a), b, c, d, a, x, 12, 20, T32);
    NoSteps(32, Regs(a, b, c, d), x);
    out := Regs(a, b, c, d);
  }

  lemma {:induction false} Order3()
    ensures K(32) == 5 && K(33) == 8 && K(34) == 11 && K(35) == 14 && K(36) == 1 && K(37) == 4 && K(38) == 7 && K(39) == 10
    ensures K(40) == 13 && K(41) == 0 && K(42) == 3 && K(43) == 6 && K(44) == 9 && K(45) == 12 && K(46) == 15 && K(47) == 2
    ensures S(32) == 4 && S(33) == 11 && S(34) == 16 && S(35) == 23 && S(36) == 4 && S(37) == 11 && S(38) == 16 && S(39) == 23
    ensures S(40) == 4 && S(41) == 11 && S(42) == 16 && S(43) == 23 && S(44) == 4 && S(45) == 11 && S(46) == 16 && S(47) == 23
  {
  }

  lemma {:induction false} Table3()
    ensures T(32) == T33 && T(33) == T34 && T(34) == T35 && T(35) == T36 && T(36) == T37 && T(37) == T38 && T(38) == T39 && T(39) == T40
    ensures T(40) == T41 && T(41) == T42 && T(42) == T43 && T(43) == T44 && T(44) == T45 && T(45) == T46 && T(46) == T47 && T(47) == T48
  {
  }

  method Round3(r: Regs, x: seq<word>) returns (out: Regs)
    requires |x| == 16
    ensures out == Operations(32, 16, r, x)
  {
    Order3();
    Table3();
    hide Operations, Operation, RotateLeft, F, G, H, I, T, K, S;
    hide T33, T34, T35, T36, T37, T38, T39, T40, T41, T42, T43, T44, T45, T46, T47, T48;
    var Regs(a, b, c, d) := r;
    a := Set(32, H(b, c, d), a, b, c, d, x, 5, 4, T33);
    d := Set(33, H(a, b, c), d, a, b, c, x, 8, 11, T34);
    c := Set(34, H(d, a, b), c, d, a, b, x, 11, 16, T35);
    b := Set(35, H(c, d, a), b, c, d, a, x, 14, 23, T36);
    a := Set(36, H(b, c, d), a, b, c, d, x, 1, 4, T37);
    d := Set(37, H(a, b, c), d, a, b, c, x, 4, 11, T38);
    c := Set(38, H(d, a, b), c, d, a, b, x, 7, 16, T39);
    b := Set(39, H(c, d, a), b, c, d, a, x, 10, 23, T40);
    a := Set(40, H(b, c, d), a, b, c, d, x, 13, 4, T41);
    d := Set(41, H(a, b, c), d, a, b, c, x, 0, 11, T42);
    c := Set(42, H(d, a, b), c, d, a, b, x, 3, 16, T43);
    b := Set(43, H(c, d, a), b, c, d, a, x, 6, 23, T44);
    a := Set(44, H(b, c, d), a, b, c, d, x, 9, 4, T45);
    d := Set(45, H(a, b, c), d, a, b, c, x, 12, 11, T46);
    c := Set(46, H(d, a, b), c, d, a, b, x, 15, 16, T47);
    b := Set(47, H(c, d, a), b, c, d, a, x, 2, 23, T48);
    NoSteps(48, Regs(a, b, c, d), x);
    out := Regs(a, b, c, d);
  }

  lemma {:induction false} Order4()
    ensures K(48) == 0 && K(49) == 7 && K(50) == 14 && K(51) == 5 && K(52) == 12 && K(53) == 3 && K(54) == 10 && K(55) == 1
    ensures K(56) == 8 && K(57) == 15 && K(58) == 6 && K(59) == 13 && K(60) == 4 && K(61) == 11 && K(62) == 2 && K(63) == 9
    ensures S(48) == 6 && S(49) == 10 && S(50) == 15 && S(51) == 21 && S(52) == 6 && S(53) == 10 && S(54) == 15 && S(55) == 21
    ensures S(56) == 6 && S(57) == 10 && S(58) == 15 && S(59) == 21 && S(60) == 6 && S(61) == 10 && S(62) == 15 && S(63) == 21
  {
  }

  lemma {:induction false} Table4()
    ensures T(48) == T49 && T(49) == T50 && T(50) == T51 && T(51) == T52 && T(52) == T53 && T(53) == T54 && T(54) == T55 && T(55) == T56
    ensures T(56) == T57 && T(57) == T58 && T(58) == T59 && T(59) == T60 && T(60) == T61 && T(61) == T62 && T(62) == T63 && T(63) == T64
  {
  }

  method Round4(r: Regs, x: seq<word>) returns (out: Regs)
    requires |x| == 16
    ensures out == Operations(48, 16, r, x)
  {
    Order4();
    Table4();
    hide Operations, Operation, RotateLeft, F, G, H, I, T, K, S;
    hide T49, T50, T51, T52, T53, T54, T55, T56, T57, T58, T59, T60, T61, T62, T63, T64;
    var Regs(a, b, c, d) := r;
    a := Set(48, I(b, c, d), a, b, c, d, x, 0, 6, T49);
    d := Set(49, I(a, b, c), d, a, b, c, x, 7, 10, T50);
    c := Set(50, I(d, a, b), c, d, a, b, x, 14, 15, T51);
    b := Set(51, I(c, d, a), b, c, d, a, x, 5, 21, T52);
    a := Set(52, I(b, c, d), a, b, c, d, x, 12, 6, T53);
    d := Set(53, I(a, b, c), d, a, b, c, x, 3, 10, T54);
    c := Set(54, I(d, a, b), c, d, a, b, x, 10, 15, T55);
    b := Set(55, I(c, d, a), b, c, d, a, x, 1, 21, T56);
    a := Set(56, I(b, c, d), a, b, c, d, x, 8, 6, T57);
    d := Set(57, I(a, b, c), d, a, b, c, x, 15, 10, T58);
    c := Set(58, I(d, a, b), c, d, a, b, x, 6, 15, T59);
    b := Set(59, I(c, d, a), b, c, d, a, x, 13, 21, T60);
    a := Set(60, I(b, c, d), a, b, c, d, x, 4, 6, T61);
    d := Set(61, I(a, b, c), d, a, b, c, x, 11, 10, T62);
    c := Set(62, I(d, a, b), c, d, a, b, x, 2, 15, T63);
    b := Set(63, I(c, d, a), b, c, d, a, x, 9, 21, T64);
    NoSteps(64, Regs(a, b, c, d), x);
    out := Regs(a, b, c, d);
  }
}
